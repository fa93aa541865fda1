// Lifecycle of long-running device operations (crates/devicehub-core/src/operation.rs).
module OperationRegistry {
  import opened Prelude

  const MAX_RETAINED: nat := 32
  const MAX_TEXT_CHARS: nat := 512

  datatype Kind =
    | AppUninstall | AppDocumentExport | AppDocumentImport | DeviceFileExport | DeviceFileImport
    | DeviceBackup | Sysdiagnose | LogArchive | NetworkCapture | BluetoothCapture
    | DeveloperImageMount | DeveloperImageUnmount | WdaRunner

  datatype Phase = Running | Cancelling | Succeeded | Cancelled | Failed {
    predicate IsActive() {
      Running? || Cancelling?
    }
  }

  datatype ErrorCode =
    | InvalidRequest | Busy | Unavailable | Timeout | WasCancelled | DeviceLocked
    | PermissionDenied | Transport | Unsupported | Internal

  datatype SuggestedAction = Retry | UnlockDevice | ReconnectDevice | CloseDeveloperTools | CheckPermissions

  datatype OperationError = OperationError(
    code: ErrorCode, message: string, retryable: bool, suggestedAction: Option<SuggestedAction>)

  datatype Operation = Operation(
    id: nat,
    kind: Kind,
    phase: Phase,
    stage: Option<string>,
    caption: Option<string>,
    progressPercent: Option<real>,
    cancellable: bool,
    startedAtMs: nat,
    updatedAtMs: nat,
    error: Option<OperationError>)

  datatype Registry = Registry(nextId: nat, operations: seq<Operation>)

  const EMPTY := Registry(0, [])

  function BoundedText(text: string): string {
    Prefix(text, MAX_TEXT_CHARS)
  }

  function Bounded(text: Option<string>): Option<string> {
    if text.None? then None else Some(BoundedText(text.value))
  }

  function NewError(code: ErrorCode, message: string): OperationError {
    OperationError(code, BoundedText(message), false, None)
  }

  /** `wrapping_add(1).max(1)` on a u64. */
  function FollowingId(id: nat): nat {
    Max((id + 1) % (U64_MAX + 1), 1)
  }

  function Clamped(progress: Option<real>): Option<real> {
    match progress
    case None => None
    case Some(p) => Some(if p < 0.0 then 0.0 else if p > 100.0 then 100.0 else p)
  }

  // ----- what the closures passed to `update_active` do -----

  datatype Change =
    | Progress(stage: Option<string>, progress: Option<real>)
    | AskCancel
    | Finish(phase: Phase, error: Option<OperationError>)

  function Changed(op: Operation, change: Change, now: nat): Operation {
    var changed := match change
      case Progress(stage, progress) => op.(stage := Bounded(stage), progressPercent := Clamped(progress))
      case AskCancel => if op.cancellable then op.(phase := Cancelling) else op
      case Finish(phase, error) =>
        op.(phase := phase,
            stage := None,
            progressPercent := if phase == Succeeded then Some(100.0) else op.progressPercent,
            error := error);
    changed.(updatedAtMs := now)
  }

  /** Index of the active operation `id`. */
  function FindActive(ops: seq<Operation>, id: nat): (i: Option<nat>)
    ensures i.Some? ==> i.value < |ops| && ops[i.value].id == id && ops[i.value].phase.IsActive()
    ensures i.Some? ==> forall j :: 0 <= j < i.value ==> !(ops[j].id == id && ops[j].phase.IsActive())
    ensures i.None? ==> forall j :: 0 <= j < |ops| ==> !(ops[j].id == id && ops[j].phase.IsActive())
  {
    if ops == [] then None
    else if ops[0].id == id && ops[0].phase.IsActive() then Some(0)
    else
      var rest := FindActive(ops[1..], id);
      if rest.None? then None else Some(rest.value + 1)
  }

  function UpdateActive(r: Registry, id: nat, change: Change, now: nat): Registry {
    var i := FindActive(r.operations, id);
    if i.None? then r
    else r.(operations := r.operations[i.value := Changed(r.operations[i.value], change, now)])
  }

  function Restored(op: Operation, now: nat): Operation {
    op.(phase := Running, updatedAtMs := now)
  }

  /** An active operation with this id is Cancelling: set it back to Running. */
  function CancelRequestFailed(r: Registry, id: nat, now: nat): Registry {
    var i := FindCancelling(r.operations, id);
    if i.None? then r else r.(operations := r.operations[i.value := Restored(r.operations[i.value], now)])
  }

  function FindCancelling(ops: seq<Operation>, id: nat): (i: Option<nat>)
    ensures i.Some? ==> i.value < |ops| && ops[i.value].id == id && ops[i.value].phase == Cancelling
    ensures i.Some? ==> forall j :: 0 <= j < i.value ==> !(ops[j].id == id && ops[j].phase == Cancelling)
    ensures i.None? ==> forall j :: 0 <= j < |ops| ==> !(ops[j].id == id && ops[j].phase == Cancelling)
  {
    if ops == [] then None
    else if ops[0].id == id && ops[0].phase == Cancelling then Some(0)
    else
      var rest := FindCancelling(ops[1..], id);
      if rest.None? then None else Some(rest.value + 1)
  }

  function CancelledBy(op: Operation, message: string, now: nat): Operation {
    if op.phase.IsActive() then
      op.(phase := Cancelled, updatedAtMs := now, error := Some(NewError(WasCancelled, BoundedText(message))))
    else op
  }

  function CancelAll(r: Registry, message: string, now: nat): Registry {
    r.(operations := seq(|r.operations|, i requires 0 <= i < |r.operations| => CancelledBy(r.operations[i], message, now)))
  }

  // ----- begin -----

  predicate KindIsActive(ops: seq<Operation>, kind: Kind) {
    exists i :: 0 <= i < |ops| && ops[i].kind == kind && ops[i].phase.IsActive()
  }

  function FirstFinished(ops: seq<Operation>): (i: Option<nat>)
    ensures i.Some? ==> i.value < |ops| && !ops[i.value].phase.IsActive()
    ensures i.Some? ==> forall j :: 0 <= j < i.value ==> ops[j].phase.IsActive()
    ensures i.None? ==> forall j :: 0 <= j < |ops| ==> ops[j].phase.IsActive()
  {
    if ops == [] then None
    else if !ops[0].phase.IsActive() then Some(0)
    else
      var rest := FirstFinished(ops[1..]);
      if rest.None? then None else Some(rest.value + 1)
  }

  function Without(ops: seq<Operation>, i: nat): seq<Operation>
    requires i < |ops|
  {
    ops[..i] + ops[i + 1..]
  }

  /** Make room for one more; None when every retained operation is active. */
  function Evicted(ops: seq<Operation>): (Option<seq<Operation>>, seq<Operation>)
    decreases |ops|
  {
    if |ops| < MAX_RETAINED then (Some(ops), ops)
    else
      var i := FirstFinished(ops);
      if i.None? then (None, ops) else Evicted(Without(ops, i.value))
  }

  function NewOperation(id: nat, kind: Kind, caption: Option<string>, cancellable: bool, now: nat): Operation {
    Operation(id, kind, Running, None, Bounded(caption), None, cancellable, now, now, None)
  }

  /** Result and next registry; entries evicted before a failure stay evicted. */
  function Begin(r: Registry, kind: Kind, caption: Option<string>, cancellable: bool, now: nat)
    : (Result<nat, OperationError>, Registry)
  {
    if KindIsActive(r.operations, kind) then
      (Err(NewError(Busy, "an operation of this kind is already running")), r)
    else
      var (room, kept) := Evicted(r.operations);
      if room.None? then
        (Err(NewError(Busy, "too many device operations are running")), r.(operations := kept))
      else
        var id := FollowingId(r.nextId);
        (Ok(id), Registry(id, room.value + [NewOperation(id, kind, caption, cancellable, now)]))
  }

  // ----- the registry as the program holds it -----

  datatype Summary = Summary(activeCount: nat, failedCount: nat, latestUpdatedAtMs: Option<nat>)

  function CountActive(ops: seq<Operation>): nat {
    if ops == [] then 0 else CountActive(ops[..|ops| - 1]) + if ops[|ops| - 1].phase.IsActive() then 1 else 0
  }

  function CountFailed(ops: seq<Operation>): nat {
    if ops == [] then 0 else CountFailed(ops[..|ops| - 1]) + if ops[|ops| - 1].phase == Failed then 1 else 0
  }

  class ManagedOperationRegistry {
    var nextId: nat
    var operations: seq<Operation>

    function View(): Registry
      reads this
    {
      Registry(nextId, operations)
    }

    constructor ()
      ensures View() == EMPTY
    {
      nextId, operations := 0, [];
    }

    method FindFinished() returns (index: nat)
      ensures FirstFinished(operations) == if index == |operations| then None else Some(index)
    {
      index := 0;
      while index < |operations| && operations[index].phase.IsActive()
        invariant index <= |operations|
        invariant forall j :: 0 <= j < index ==> operations[j].phase.IsActive()
      {
        index := index + 1;
      }
    }

    method AnyActive(kind: Kind) returns (found: bool)
      ensures found <==> KindIsActive(operations, kind)
    {
      found := false;
      for i := 0 to |operations|
        invariant !found
        invariant forall j :: 0 <= j < i ==> !(operations[j].kind == kind && operations[j].phase.IsActive())
      {
        if operations[i].kind == kind && operations[i].phase.IsActive() {
          return true;
        }
      }
    }

    method EvictFinished() returns (room: bool)
      modifies this`operations
      ensures Evicted(old(operations)) == (if room then Some(operations) else None, operations)
    {
      while |operations| >= MAX_RETAINED
        invariant Evicted(operations) == Evicted(old(operations))
        decreases |operations|
      {
        var index := FindFinished();
        if index == |operations| {
          return false;
        }
        operations := Without(operations, index);
      }
      room := true;
    }

    method BeginOperation(kind: Kind, caption: Option<string>, cancellable: bool, now: nat)
      returns (result: Result<nat, OperationError>)
      modifies this
      ensures (result, View()) == Begin(old(View()), kind, caption, cancellable, now)
    {
      hide Evicted, KindIsActive;
      var running := AnyActive(kind);
      if running {
        return Err(NewError(Busy, "an operation of this kind is already running"));
      }
      var room := EvictFinished();
      if !room {
        return Err(NewError(Busy, "too many device operations are running"));
      }
      nextId := FollowingId(nextId);
      operations := operations + [NewOperation(nextId, kind, caption, cancellable, now)];
      result := Ok(nextId);
    }

    method Change(id: nat, change: Change, now: nat) returns (found: Option<Operation>)
      modifies this`operations
      ensures View() == UpdateActive(old(View()), id, change, now)
      ensures found == var i := FindActive(old(operations), id); if i.None? then None else Some(old(operations)[i.value])
    {
      var i := 0;
      while i < |operations| && !(operations[i].id == id && operations[i].phase.IsActive())
        invariant i <= |operations|
        invariant forall j :: 0 <= j < i ==> !(operations[j].id == id && operations[j].phase.IsActive())
      {
        i := i + 1;
      }
      found := None;
      if i < |operations| {
        found := Some(operations[i]);
        operations := operations[i := Changed(operations[i], change, now)];
      }
    }

    method Update(id: nat, stage: Option<string>, progress: Option<real>, now: nat)
      modifies this`operations
      ensures View() == UpdateActive(old(View()), id, Progress(stage, progress), now)
    {
      var _ := Change(id, Progress(stage, progress), now);
    }

    method RequestCancel(id: nat, now: nat) returns (changed: bool)
      modifies this`operations
      ensures View() == UpdateActive(old(View()), id, AskCancel, now)
      ensures changed <==> var i := FindActive(old(operations), id); i.Some? && old(operations)[i.value].cancellable
    {
      var found := Change(id, AskCancel, now);
      changed := found.Some? && found.value.cancellable;
    }

    method RejectCancel(id: nat, now: nat) returns (changed: bool)
      modifies this`operations
      ensures View() == CancelRequestFailed(old(View()), id, now)
      ensures changed <==> exists i :: 0 <= i < |old(operations)| && old(operations)[i].id == id && old(operations)[i].phase == Cancelling
    {
      var i := 0;
      while i < |operations| && !(operations[i].id == id && operations[i].phase == Cancelling)
        invariant i <= |operations|
        invariant forall j :: 0 <= j < i ==> !(operations[j].id == id && operations[j].phase == Cancelling)
      {
        i := i + 1;
      }
      changed := i < |operations|;
      if changed {
        operations := operations[i := Restored(operations[i], now)];
      }
    }

    method FinishOperation(id: nat, phase: Phase, error: Option<OperationError>, now: nat)
      modifies this`operations
      ensures View() == UpdateActive(old(View()), id, Finish(phase, error), now)
    {
      var _ := Change(id, Finish(phase, error), now);
    }

    method CancelEverything(message: string, now: nat)
      modifies this`operations
      ensures View() == CancelAll(old(View()), message, now)
    {
      ghost var before := operations;
      for i := 0 to |operations|
        invariant |operations| == |before|
        invariant forall j :: 0 <= j < i ==> operations[j] == CancelledBy(before[j], message, now)
        invariant forall j :: i <= j < |before| ==> operations[j] == before[j]
      {
        if operations[i].phase.IsActive() {
          operations := operations[i := operations[i].(
            phase := Cancelled, updatedAtMs := now, error := Some(NewError(WasCancelled, BoundedText(message))))];
        }
      }
      assert operations == CancelAll(Registry(nextId, before), message, now).operations;
    }

    method Snapshot() returns (newestFirst: seq<Operation>)
      ensures |newestFirst| == |operations|
      ensures forall i :: 0 <= i < |operations| ==> newestFirst[i] == operations[|operations| - 1 - i]
    {
      newestFirst := [];
      for i := 0 to |operations|
        invariant |newestFirst| == i
        invariant forall j :: 0 <= j < i ==> newestFirst[j] == operations[i - 1 - j]
      {
        newestFirst := [operations[i]] + newestFirst;
      }
    }

    method Summarize() returns (summary: Summary)
      ensures summary.activeCount == CountActive(operations)
      ensures summary.failedCount == CountFailed(operations)
      ensures summary.latestUpdatedAtMs.None? <==> operations == []
      ensures summary.latestUpdatedAtMs.Some? ==>
                && (exists op :: op in operations && op.updatedAtMs == summary.latestUpdatedAtMs.value)
                && (forall op :: op in operations ==> op.updatedAtMs <= summary.latestUpdatedAtMs.value)
    {
      var active, failed, latest := 0, 0, None;
      for i := 0 to |operations|
        invariant active == CountActive(operations[..i]) && failed == CountFailed(operations[..i])
        invariant latest.None? <==> i == 0
        invariant latest.Some? ==> exists j :: 0 <= j < i && operations[j].updatedAtMs == latest.value
        invariant latest.Some? ==> forall j :: 0 <= j < i ==> operations[j].updatedAtMs <= latest.value
      {
        var op := operations[i];
        assert operations[..i + 1][..i] == operations[..i];
        if op.phase.IsActive() {
          active := active + 1;
        }
        if op.phase == Failed {
          failed := failed + 1;
        }
        if latest.None? || latest.value < op.updatedAtMs {
          latest := Some(op.updatedAtMs);
        }
      }
      assert operations[..|operations|] == operations;
      summary := Summary(active, failed, latest);
    }
  }

  // ----- runs -----

  datatype Command =
    | DoBegin(kind: Kind, caption: Option<string>, cancellable: bool)
    | DoUpdate(id: nat, stage: Option<string>, progress: Option<real>)
    | DoRequestCancel(id: nat)
    | DoRejectCancel(id: nat)
    | DoSucceed(id: nat)
    | DoCancel(id: nat, message: string)
    | DoFail(id: nat, failure: OperationError)
    | DoCancelAll(message: string)

  function Exec(r: Registry, command: Command, now: nat): Registry {
    match command
    case DoBegin(kind, caption, cancellable) => Begin(r, kind, caption, cancellable, now).1
    case DoUpdate(id, stage, progress) => UpdateActive(r, id, Progress(stage, progress), now)
    case DoRequestCancel(id) => UpdateActive(r, id, AskCancel, now)
    case DoRejectCancel(id) => CancelRequestFailed(r, id, now)
    case DoSucceed(id) => UpdateActive(r, id, Finish(Succeeded, None), now)
    case DoCancel(id, message) => UpdateActive(r, id, Finish(Cancelled, Some(NewError(WasCancelled, message))), now)
    case DoFail(id, failure) => UpdateActive(r, id, Finish(Failed, Some(failure)), now)
    case DoCancelAll(message) => CancelAll(r, message, now)
  }

  /** Commands paired with the clock reading each one happens to see. */
  function Run(r: Registry, commands: seq<(Command, nat)>): Registry
    decreases |commands|
  {
    if commands == [] then r
    else
      var last := commands[|commands| - 1];
      Exec(Run(r, commands[..|commands| - 1]), last.0, last.1)
  }

  // ----- the invariant -----

  ghost predicate WellFormed(op: Operation) {
    && (op.phase == Cancelling ==> op.cancellable)
    && (op.phase == Succeeded ==> op.progressPercent == Some(100.0))
    && (op.phase == Succeeded || op.phase == Failed ==> op.stage == None)
    && (op.error.Some? <==> op.phase == Cancelled || op.phase == Failed)
    && (op.progressPercent.Some? ==> 0.0 <= op.progressPercent.value <= 100.0)
  }

  /** Ids strictly increase from front to back and none is above the last one issued. */
  ghost predicate Ordered(r: Registry) {
    && (forall i :: 0 <= i < |r.operations| ==> 1 <= r.operations[i].id <= r.nextId)
    && (forall i, j :: 0 <= i < j < |r.operations| ==> r.operations[i].id < r.operations[j].id)
  }

  ghost predicate OnePerKind(ops: seq<Operation>) {
    forall i, j :: 0 <= i < j < |ops| && ops[i].phase.IsActive() && ops[j].phase.IsActive() ==> ops[i].kind != ops[j].kind
  }

  ghost predicate Inv(r: Registry) {
    && |r.operations| <= MAX_RETAINED
    && Ordered(r)
    && OnePerKind(r.operations)
    && forall i :: 0 <= i < |r.operations| ==> WellFormed(r.operations[i])
  }

  // ----- the pigeonhole: 13 kinds cannot fill 32 places -----

  function KindIndex(kind: Kind): nat {
    match kind
    case AppUninstall => 0
    case AppDocumentExport => 1
    case AppDocumentImport => 2
    case DeviceFileExport => 3
    case DeviceFileImport => 4
    case DeviceBackup => 5
    case Sysdiagnose => 6
    case LogArchive => 7
    case NetworkCapture => 8
    case BluetoothCapture => 9
    case DeveloperImageMount => 10
    case DeveloperImageUnmount => 11
    case WdaRunner => 12
  }

  function ActiveKinds(ops: seq<Operation>): (kinds: set<nat>)
    ensures forall k :: k in kinds ==> k < 13
  {
    if ops == [] then {}
    else
      var last := ops[|ops| - 1];
      ActiveKinds(ops[..|ops| - 1]) + if last.phase.IsActive() then {KindIndex(last.kind)} else {}
  }

  lemma {:induction false} NotAmongActive(ops: seq<Operation>, kind: Kind)
    requires !KindIsActive(ops, kind)
    ensures KindIndex(kind) !in ActiveKinds(ops)
  {
    if ops != [] {
      var init := ops[..|ops| - 1];
      assert !KindIsActive(init, kind) by {
        forall i | 0 <= i < |init| ensures !(init[i].kind == kind && init[i].phase.IsActive()) {
          assert init[i] == ops[i];
        }
      }
      NotAmongActive(init, kind);
      assert !(ops[|ops| - 1].kind == kind && ops[|ops| - 1].phase.IsActive());
    }
  }

  lemma {:induction false} ActiveKindsCount(ops: seq<Operation>)
    requires OnePerKind(ops)
    ensures |ActiveKinds(ops)| == CountActive(ops)
  {
    if ops != [] {
      var init := ops[..|ops| - 1];
      var last := ops[|ops| - 1];
      ActiveKindsCount(init);
      if last.phase.IsActive() {
        NotAmongActive(init, last.kind);
      }
    }
  }

  lemma {:induction false} AllActiveCount(ops: seq<Operation>)
    requires forall i :: 0 <= i < |ops| ==> ops[i].phase.IsActive()
    ensures CountActive(ops) == |ops|
  {
    if ops != [] {
      AllActiveCount(ops[..|ops| - 1]);
    }
  }

  /** One active operation per kind means at most 13 active operations. */
  lemma AtMostThirteenActive(ops: seq<Operation>)
    requires OnePerKind(ops)
    ensures CountActive(ops) <= 13
  {
    hide CountActive;
    ActiveKindsCount(ops);
    SubsetSize(ActiveKinds(ops), Below(13));
  }

  /** A full registry always holds a finished operation, so room can always be made, by evicting only the oldest one. */
  lemma RoomCanBeMade(ops: seq<Operation>)
    requires OnePerKind(ops) && |ops| <= MAX_RETAINED
    ensures Evicted(ops).0.Some?
    ensures |ops| == MAX_RETAINED ==>
              var i := FirstFinished(ops);
              i.Some? && Evicted(ops).0.value == Without(ops, i.value)
    ensures |ops| < MAX_RETAINED ==> Evicted(ops).0.value == ops
  {
    if |ops| == MAX_RETAINED {
      if FirstFinished(ops).None? {
        AllActiveCount(ops);
        AtMostThirteenActive(ops);
      }
    }
  }

  /** `begin` fails exactly when an operation of the same kind is active; the other refusal cannot happen. */
  lemma BeginFailsIffKindActive(r: Registry, kind: Kind, caption: Option<string>, cancellable: bool, now: nat)
    requires Inv(r)
    ensures Begin(r, kind, caption, cancellable, now).0.Err? <==> KindIsActive(r.operations, kind)
    ensures Begin(r, kind, caption, cancellable, now).0.Err? ==> Begin(r, kind, caption, cancellable, now).1 == r
  {
    RoomCanBeMade(r.operations);
  }

  // ----- every step keeps the invariant -----

  lemma WithoutKeepsInv(r: Registry, i: nat)
    requires Inv(r) && i < |r.operations|
    ensures Inv(r.(operations := Without(r.operations, i)))
  {
  }

  lemma AppendKeepsInv(r: Registry, op: Operation)
    requires Inv(r) && |r.operations| < MAX_RETAINED
    requires op.id == r.nextId + 1 && WellFormed(op)
    requires op.phase.IsActive() ==> !KindIsActive(r.operations, op.kind)
    ensures Inv(Registry(op.id, r.operations + [op]))
  {
  }

  lemma BeginKeepsInv(r: Registry, kind: Kind, caption: Option<string>, cancellable: bool, now: nat)
    requires Inv(r) && r.nextId < U64_MAX
    ensures Inv(Begin(r, kind, caption, cancellable, now).1)
  {
    hide Evicted, FirstFinished, Inv;
    BeginFailsIffKindActive(r, kind, caption, cancellable, now);
    if !KindIsActive(r.operations, kind) {
      MadeRoom(r, kind);
      var room := Evicted(r.operations).0.value;
      AppendKeepsInv(r.(operations := room), NewOperation(FollowingId(r.nextId), kind, caption, cancellable, now));
    }
  }

  lemma MadeRoom(r: Registry, kind: Kind)
    requires Inv(r) && !KindIsActive(r.operations, kind)
    ensures Evicted(r.operations).0.Some?
    ensures var room := Evicted(r.operations).0.value;
            && Inv(r.(operations := room)) && |room| < MAX_RETAINED && !KindIsActive(room, kind)
  {
    hide Evicted;
    RoomCanBeMade(r.operations);
    if |r.operations| == MAX_RETAINED {
      var i := FirstFinished(r.operations).value;
      WithoutKeepsInv(r, i);
      assert forall j :: 0 <= j < |Without(r.operations, i)| ==> Without(r.operations, i)[j] in r.operations;
    }
  }

  /** Replacing one entry by a well-formed one of the same id and kind that is not newly active. */
  lemma ReplaceKeepsInv(r: Registry, i: nat, op: Operation)
    requires Inv(r) && i < |r.operations|
    requires op.id == r.operations[i].id && op.kind == r.operations[i].kind && WellFormed(op)
    requires op.phase.IsActive() ==> r.operations[i].phase.IsActive()
    ensures Inv(r.(operations := r.operations[i := op]))
  {
  }

  lemma ExecCounts(r: Registry, command: Command, now: nat)
    requires r.nextId < U64_MAX
    ensures r.nextId <= Exec(r, command, now).nextId <= r.nextId + 1
  {
    hide Evicted, KindIsActive, FindActive, FindCancelling;
  }

  lemma BeginCounts(r: Registry, kind: Kind, caption: Option<string>, cancellable: bool, now: nat)
    requires r.nextId < U64_MAX
    ensures var (result, r') := Begin(r, kind, caption, cancellable, now);
            r'.nextId == if result.Ok? then r.nextId + 1 else r.nextId
    ensures var (result, r') := Begin(r, kind, caption, cancellable, now);
            result.Ok? ==>
              && result.value == r.nextId + 1
              && |r'.operations| >= 1
              && r'.operations[|r'.operations| - 1] == NewOperation(r.nextId + 1, kind, caption, cancellable, now)
  {
    hide Evicted, KindIsActive;
  }

  lemma ExecKeepsInv(r: Registry, command: Command, now: nat)
    requires Inv(r) && r.nextId < U64_MAX
    ensures Inv(Exec(r, command, now))
  {
    hide Inv, UpdateActive, CancelAll, CancelRequestFailed, Evicted, KindIsActive;
    match command
    case DoBegin(kind, caption, cancellable) =>
      BeginKeepsInv(r, kind, caption, cancellable, now);
    case DoUpdate(id, stage, progress) =>
      UpdateKeepsInv(r, id, Progress(stage, progress), now);
    case DoRequestCancel(id) =>
      UpdateKeepsInv(r, id, AskCancel, now);
    case DoRejectCancel(id) =>
      RejectKeepsInv(r, id, now);
    case DoSucceed(id) =>
      UpdateKeepsInv(r, id, Finish(Succeeded, None), now);
    case DoCancel(id, message) =>
      UpdateKeepsInv(r, id, Finish(Cancelled, Some(NewError(WasCancelled, message))), now);
    case DoFail(id, failure) =>
      UpdateKeepsInv(r, id, Finish(Failed, Some(failure)), now);
    case DoCancelAll(message) =>
      CancelAllKeepsInv(r, message, now);
  }

  lemma CancelAllKeepsInv(r: Registry, message: string, now: nat)
    requires Inv(r)
    ensures Inv(CancelAll(r, message, now))
  {
  }

  lemma RejectKeepsInv(r: Registry, id: nat, now: nat)
    requires Inv(r)
    ensures Inv(CancelRequestFailed(r, id, now))
  {
    var i := FindCancelling(r.operations, id);
    if i.Some? {
      ReplaceKeepsInv(r, i.value, Restored(r.operations[i.value], now));
    }
  }

  ghost predicate Coherent(change: Change) {
    change.Finish? ==>
      && !change.phase.IsActive()
      && (change.error.Some? <==> change.phase == Cancelled || change.phase == Failed)
  }

  lemma UpdateKeepsInv(r: Registry, id: nat, change: Change, now: nat)
    requires Inv(r) && Coherent(change)
    ensures Inv(UpdateActive(r, id, change, now))
  {
    var i := FindActive(r.operations, id);
    if i.Some? {
      ReplaceKeepsInv(r, i.value, Changed(r.operations[i.value], change, now));
    }
  }

  lemma {:induction false} RunKeepsInv(commands: seq<(Command, nat)>)
    requires |commands| <= U64_MAX
    ensures Inv(Run(EMPTY, commands))
    ensures Run(EMPTY, commands).nextId <= |commands|
    decreases |commands|
  {
    hide Exec, Inv;
    if commands == [] {
      EmptyInv();
    } else {
      var last := commands[|commands| - 1];
      RunKeepsInv(commands[..|commands| - 1]);
      ExecKeepsInv(Run(EMPTY, commands[..|commands| - 1]), last.0, last.1);
      ExecCounts(Run(EMPTY, commands[..|commands| - 1]), last.0, last.1);
    }
  }

  lemma EmptyInv()
    ensures Inv(EMPTY)
  {
  }

  // ----- histories of one operation -----

  function Lookup(ops: seq<Operation>, id: nat): (op: Option<Operation>)
    ensures op.Some? ==> op.value in ops && op.value.id == id
    ensures op.None? ==> forall i :: 0 <= i < |ops| ==> ops[i].id != id
  {
    if ops == [] then None else if ops[0].id == id then Some(ops[0]) else Lookup(ops[1..], id)
  }

  lemma LookupIs(r: Registry, i: nat)
    requires Ordered(r) && i < |r.operations|
    ensures Lookup(r.operations, r.operations[i].id) == Some(r.operations[i])
  {
    var found := Lookup(r.operations, r.operations[i].id).value;
    var k :| 0 <= k < |r.operations| && r.operations[k] == found;
    assert k == i;
  }

  /** What may happen to a retained or forgotten id in one step. */
  ghost predicate Evolves(before: Option<Operation>, after: Option<Operation>) {
    match before
    case Some(op) =>
      if op.phase.IsActive() then
        && after.Some?
        && after.value.kind == op.kind && after.value.caption == op.caption
        && after.value.cancellable == op.cancellable && after.value.startedAtMs == op.startedAtMs
      else after == None || after == before
    case None => after == None
  }

  lemma ReplaceEvolves(r: Registry, i: nat, op: Operation, id: nat)
    requires Ordered(r) && i < |r.operations|
    requires Evolves(Some(r.operations[i]), Some(op)) && op.id == r.operations[i].id
    ensures Evolves(Lookup(r.operations, id), Lookup(r.operations[i := op], id))
  {
    var r' := r.(operations := r.operations[i := op]);
    forall k | 0 <= k < |r.operations| && r.operations[k].id == id
      ensures Lookup(r.operations, id) == Some(r.operations[k]) && Lookup(r'.operations, id) == Some(r'.operations[k])
    {
      LookupIs(r, k);
      LookupIs(r', k);
    }
  }

  lemma WithoutEvolves(r: Registry, i: nat, id: nat)
    requires Ordered(r) && i < |r.operations| && !r.operations[i].phase.IsActive()
    ensures Evolves(Lookup(r.operations, id), Lookup(Without(r.operations, i), id))
  {
    hide Lookup;
    var r' := r.(operations := Without(r.operations, i));
    assert Ordered(r');
    forall k | 0 <= k < |r.operations| && r.operations[k].id == id
      ensures Lookup(r.operations, id) == Some(r.operations[k])
      ensures k != i ==> Lookup(r'.operations, id) == Some(r.operations[k])
    {
      LookupIs(r, k);
      if k < i {
        LookupIs(r', k);
      } else if k > i {
        LookupIs(r', k - 1);
      }
    }
    forall k | 0 <= k < |r'.operations| && r'.operations[k].id == id
      ensures Lookup(r.operations, id).Some?
    {
      assert r'.operations[k] in r.operations;
    }
  }

  lemma AppendEvolves(ops: seq<Operation>, op: Operation, id: nat)
    requires op.id != id
    ensures Lookup(ops + [op], id) == Lookup(ops, id)
  {
    if ops == [] {
      assert [op][1..] == [];
    } else {
      assert (ops + [op])[1..] == ops[1..] + [op];
      AppendEvolves(ops[1..], op, id);
    }
  }

  lemma BeginEvolves(r: Registry, kind: Kind, caption: Option<string>, cancellable: bool, now: nat, id: nat)
    requires Inv(r) && id <= r.nextId < U64_MAX
    ensures Evolves(Lookup(r.operations, id), Lookup(Begin(r, kind, caption, cancellable, now).1.operations, id))
  {
    hide Evicted, Lookup;
    RoomCanBeMade(r.operations);
    if !KindIsActive(r.operations, kind) {
      AppendEvolves(Evicted(r.operations).0.value, NewOperation(FollowingId(r.nextId), kind, caption, cancellable, now), id);
      if |r.operations| == MAX_RETAINED {
        WithoutEvolves(r, FirstFinished(r.operations).value, id);
      }
    }
  }

  lemma UpdateEvolves(r: Registry, target: nat, change: Change, now: nat, id: nat)
    requires Inv(r)
    ensures Evolves(Lookup(r.operations, id), Lookup(UpdateActive(r, target, change, now).operations, id))
  {
    hide Lookup;
    var i := FindActive(r.operations, target);
    if i.Some? {
      ReplaceEvolves(r, i.value, Changed(r.operations[i.value], change, now), id);
    }
  }

  lemma CancelAllEvolves(r: Registry, message: string, now: nat, id: nat)
    requires Inv(r)
    ensures Evolves(Lookup(r.operations, id), Lookup(CancelAll(r, message, now).operations, id))
  {
    var r' := CancelAll(r, message, now);
    assert Ordered(r');
    forall k | 0 <= k < |r.operations| && r.operations[k].id == id
      ensures Lookup(r.operations, id) == Some(r.operations[k]) && Lookup(r'.operations, id) == Some(r'.operations[k])
    {
      LookupIs(r, k);
      LookupIs(r', k);
    }
  }

  lemma ExecEvolves(r: Registry, command: Command, now: nat, id: nat)
    requires Inv(r) && id <= r.nextId < U64_MAX
    ensures Evolves(Lookup(r.operations, id), Lookup(Exec(r, command, now).operations, id))
  {
    hide Lookup, Begin, UpdateActive, CancelAll;
    match command
    case DoBegin(kind, caption, cancellable) =>
      BeginEvolves(r, kind, caption, cancellable, now, id);
    case DoUpdate(target, stage, progress) =>
      UpdateEvolves(r, target, Progress(stage, progress), now, id);
    case DoRequestCancel(target) =>
      UpdateEvolves(r, target, AskCancel, now, id);
    case DoRejectCancel(target) =>
      var i := FindCancelling(r.operations, target);
      if i.Some? {
        ReplaceEvolves(r, i.value, Restored(r.operations[i.value], now), id);
      }
    case DoSucceed(target) =>
      UpdateEvolves(r, target, Finish(Succeeded, None), now, id);
    case DoCancel(target, message) =>
      UpdateEvolves(r, target, Finish(Cancelled, Some(NewError(WasCancelled, message))), now, id);
    case DoFail(target, failure) =>
      UpdateEvolves(r, target, Finish(Failed, Some(failure)), now, id);
    case DoCancelAll(message) =>
      CancelAllEvolves(r, message, now, id);
  }

  function At(commands: seq<(Command, nat)>, k: nat, id: nat): Option<Operation>
    requires k <= |commands|
  {
    Lookup(Run(EMPTY, commands[..k]).operations, id)
  }

  lemma AtEvolves(commands: seq<(Command, nat)>, k: nat, id: nat)
    requires k < |commands| <= U64_MAX
    requires id <= Run(EMPTY, commands[..k]).nextId
    ensures Evolves(At(commands, k, id), At(commands, k + 1, id))
    ensures id <= Run(EMPTY, commands[..k + 1]).nextId
  {
    hide Exec, Lookup, Inv, Evolves;
    var before := Run(EMPTY, commands[..k]);
    assert commands[..k + 1][..k] == commands[..k];
    RunKeepsInv(commands[..k]);
    ExecEvolves(before, commands[k].0, commands[k].1, id);
    ExecCounts(before, commands[k].0, commands[k].1);
  }

  lemma RetainedWasIssued(commands: seq<(Command, nat)>, k: nat, id: nat)
    requires k <= |commands| <= U64_MAX
    requires At(commands, k, id).Some?
    ensures id <= Run(EMPTY, commands[..k]).nextId
  {
    hide Run;
    RunKeepsInv(commands[..k]);
  }

  /** The first terminal state is final: from then on the operation is either retained exactly as it was, or evicted. */
  lemma {:induction false} FirstTerminalWins(commands: seq<(Command, nat)>, k: nat, later: nat, id: nat)
    requires k <= later <= |commands| <= U64_MAX
    requires At(commands, k, id).Some? && !At(commands, k, id).value.phase.IsActive()
    ensures At(commands, later, id) == None || At(commands, later, id) == At(commands, k, id)
    ensures id <= Run(EMPTY, commands[..later]).nextId
    decreases later - k
  {
    hide Run, Lookup;
    if later == k {
      RetainedWasIssued(commands, k, id);
    } else {
      FirstTerminalWins(commands, k, later - 1, id);
      AtEvolves(commands, later - 1, id);
    }
  }

  /** An operation is never lost while active: it stays retained until some earlier moment at which it was terminal. */
  lemma {:induction false} ActiveIsNeverEvicted(commands: seq<(Command, nat)>, k: nat, later: nat, id: nat)
    requires k <= later <= |commands| <= U64_MAX
    requires At(commands, k, id).Some? && At(commands, k, id).value.phase.IsActive()
    ensures (At(commands, later, id).Some?
             && At(commands, later, id).value.kind == At(commands, k, id).value.kind
             && At(commands, later, id).value.startedAtMs == At(commands, k, id).value.startedAtMs)
         || exists m :: k <= m < later && At(commands, m, id).Some? && !At(commands, m, id).value.phase.IsActive()
    ensures id <= Run(EMPTY, commands[..later]).nextId
    decreases later - k
  {
    hide Run, Lookup;
    if later == k {
      RetainedWasIssued(commands, k, id);
    } else {
      ActiveIsNeverEvicted(commands, k, later - 1, id);
      AtEvolves(commands, later - 1, id);
    }
  }

  /** A successful begin adds exactly one running operation, under an id never issued before. */
  lemma BeginAddsRunning(commands: seq<(Command, nat)>, kind: Kind, caption: Option<string>, cancellable: bool, now: nat)
    requires |commands| < U64_MAX
    ensures var r := Run(EMPTY, commands);
            var (result, r') := Begin(r, kind, caption, cancellable, now);
            result.Ok? ==>
              && result.value == r.nextId + 1 == r'.nextId
              && Lookup(r'.operations, result.value) == Some(NewOperation(result.value, kind, caption, cancellable, now))
              && forall k {:trigger At(commands, k, result.value)} :: 0 <= k <= |commands| ==> At(commands, k, result.value) == None
  {
    hide Lookup, Run, Begin, Inv, NewOperation;
    var r := Run(EMPTY, commands);
    RunKeepsInv(commands);
    BeginKeepsInv(r, kind, caption, cancellable, now);
    BeginCounts(r, kind, caption, cancellable, now);
    var (result, r') := Begin(r, kind, caption, cancellable, now);
    if result.Ok? {
      InvIsOrdered(r');
      LookupIs(r', |r'.operations| - 1);
      NewOperationId(r.nextId + 1, kind, caption, cancellable, now);
      var id := r.nextId + 1;
      forall k {:trigger At(commands, k, id)} | 0 <= k <= |commands| ensures At(commands, k, id) == None {
        NeverIssued(commands, k);
      }
    }
  }

  lemma InvIsOrdered(r: Registry)
    requires Inv(r)
    ensures Ordered(r)
  {
  }

  lemma NewOperationId(id: nat, kind: Kind, caption: Option<string>, cancellable: bool, now: nat)
    ensures NewOperation(id, kind, caption, cancellable, now).id == id
  {
  }

  lemma NeverIssued(commands: seq<(Command, nat)>, k: nat)
    requires k <= |commands| <= U64_MAX
    ensures At(commands, k, Run(EMPTY, commands).nextId + 1) == None
  {
    hide Run;
    RunKeepsInv(commands[..k]);
    NextIdGrows(commands, k, |commands|);
    assert commands[..|commands|] == commands;
  }

  lemma {:induction false} NextIdGrows(commands: seq<(Command, nat)>, k: nat, later: nat)
    requires k <= later <= |commands| <= U64_MAX
    ensures Run(EMPTY, commands[..k]).nextId <= Run(EMPTY, commands[..later]).nextId
    decreases later - k
  {
    hide Exec, Inv;
    if k < later {
      NextIdGrows(commands, k, later - 1);
      assert commands[..later][..later - 1] == commands[..later - 1];
      RunKeepsInv(commands[..later - 1]);
      ExecCounts(Run(EMPTY, commands[..later - 1]), commands[later - 1].0, commands[later - 1].1);
    }
  }

  // ----- what commands achieve -----

  lemma FoundActive(r: Registry, i: nat)
    requires Ordered(r) && i < |r.operations| && r.operations[i].phase.IsActive()
    ensures FindActive(r.operations, r.operations[i].id) == Some(i)
  {
    var found := FindActive(r.operations, r.operations[i].id);
    assert found.Some?;
    assert found.value == i;
  }

  /** A command aimed at an active operation ends it as asked, and touches no other. */
  lemma CommandsEndOperations(r: Registry, i: nat, message: string, failure: OperationError, now: nat)
    requires Inv(r) && i < |r.operations| && r.operations[i].phase.IsActive()
    ensures var id := r.operations[i].id;
            var succeeded := Exec(r, DoSucceed(id), now).operations;
            var cancelled := Exec(r, DoCancel(id, message), now).operations;
            var failed := Exec(r, DoFail(id, failure), now).operations;
            && |succeeded| == |cancelled| == |failed| == |r.operations|
            && (forall j :: 0 <= j < |r.operations| && j != i ==> succeeded[j] == cancelled[j] == failed[j] == r.operations[j])
            && succeeded[i].phase == Succeeded && succeeded[i].progressPercent == Some(100.0) && succeeded[i].error == None
            && cancelled[i].phase == Cancelled && cancelled[i].error.Some? && cancelled[i].error.value.code == WasCancelled
            && cancelled[i].progressPercent == r.operations[i].progressPercent
            && failed[i].phase == Failed && failed[i].error == Some(failure)
  {
    FoundActive(r, i);
  }

  /** Asking to cancel and being refused undo each other, up to the clock; only a cancellable operation is asked at all. */
  lemma RefusedCancelRestores(r: Registry, i: nat, now: nat, later: nat)
    requires Inv(r) && i < |r.operations| && r.operations[i].phase == Running
    ensures var id := r.operations[i].id;
            var asked := Exec(r, DoRequestCancel(id), now);
            var refused := Exec(asked, DoRejectCancel(id), later);
            && asked.operations[i].phase == (if r.operations[i].cancellable then Cancelling else Running)
            && refused.nextId == r.nextId
            && refused.operations ==
                 r.operations[i := r.operations[i].(updatedAtMs := if r.operations[i].cancellable then later else now)]
  {
    var id := r.operations[i].id;
    FoundActive(r, i);
    var asked := Exec(r, DoRequestCancel(id), now);
    UpdateKeepsInv(r, id, AskCancel, now);
    var k := FindCancelling(asked.operations, id);
    if r.operations[i].cancellable {
      assert asked.operations[i].phase == Cancelling;
      assert k == Some(i);
    } else {
      assert k == None;
    }
  }

  /** Afterwards nothing is active; what had already ended is as it was. */
  lemma CancelAllEndsEverything(r: Registry, message: string, now: nat)
    ensures var after := CancelAll(r, message, now).operations;
            && CountActive(after) == 0
            && |after| == |r.operations|
            && forall i :: 0 <= i < |after| ==>
                 if r.operations[i].phase.IsActive() then after[i].phase == Cancelled && after[i].stage == r.operations[i].stage
                 else after[i] == r.operations[i]
  {
    NoneActiveCount(CancelAll(r, message, now).operations);
  }

  ghost predicate KeepsStage(op: Operation) {
    !op.phase.IsActive() && op.stage.Some?
  }

  lemma UpdateKeepsNoStage(r: Registry, id: nat, change: Change, now: nat, op: Operation)
    requires op in UpdateActive(r, id, change, now).operations && KeepsStage(op)
    requires change.Finish? ==> !change.phase.IsActive()
    ensures op in r.operations
  {
    hide BoundedText, Clamped;
  }

  lemma BeginKeepsNoStage(r: Registry, kind: Kind, caption: Option<string>, cancellable: bool, now: nat, op: Operation)
    requires op in Begin(r, kind, caption, cancellable, now).1.operations && KeepsStage(op)
    ensures op in r.operations
  {
    hide KindIsActive, Bounded, Evicted;
    EvictedWereRetained(r.operations);
  }

  lemma {:induction false} EvictedWereRetained(ops: seq<Operation>)
    ensures forall op :: op in Evicted(ops).1 ==> op in ops
    ensures Evicted(ops).0.Some? ==> forall op :: op in Evicted(ops).0.value ==> op in ops
    decreases |ops|
  {
    if |ops| >= MAX_RETAINED && FirstFinished(ops).Some? {
      var rest := Without(ops, FirstFinished(ops).value);
      assert forall op :: op in rest ==> op in ops;
      EvictedWereRetained(rest);
    }
  }

  /** Only `cancel_all` ends an operation without clearing its stage. */
  lemma OnlyCancelAllKeepsStage(r: Registry, command: Command, now: nat, op: Operation)
    requires op in Exec(r, command, now).operations && KeepsStage(op)
    ensures op in r.operations || command.DoCancelAll?
  {
    hide UpdateActive, Begin, CancelAll, KeepsStage;
    match command
    case DoBegin(kind, caption, cancellable) => BeginKeepsNoStage(r, kind, caption, cancellable, now, op);
    case DoUpdate(id, stage, progress) => UpdateKeepsNoStage(r, id, Progress(stage, progress), now, op);
    case DoRequestCancel(id) => UpdateKeepsNoStage(r, id, AskCancel, now, op);
    case DoRejectCancel(id) => RejectKeepsNoStage(r, id, now, op);
    case DoSucceed(id) => UpdateKeepsNoStage(r, id, Finish(Succeeded, None), now, op);
    case DoCancel(id, message) => UpdateKeepsNoStage(r, id, Finish(Cancelled, Some(NewError(WasCancelled, message))), now, op);
    case DoFail(id, failure) => UpdateKeepsNoStage(r, id, Finish(Failed, Some(failure)), now, op);
    case DoCancelAll(message) =>
  }

  lemma RejectKeepsNoStage(r: Registry, id: nat, now: nat, op: Operation)
    requires op in CancelRequestFailed(r, id, now).operations && KeepsStage(op)
    ensures op in r.operations
  {
  }

  /** So an operation that has ended and still shows a stage occurs only in runs with a `cancel_all`. */
  lemma {:induction false} StageMeansCancelAll(commands: seq<(Command, nat)>, op: Operation)
    requires op in Run(EMPTY, commands).operations && KeepsStage(op)
    ensures exists k :: 0 <= k < |commands| && commands[k].0.DoCancelAll?
    decreases |commands|
  {
    hide Exec, KeepsStage;
    if commands != [] {
      var last := commands[|commands| - 1];
      var init := commands[..|commands| - 1];
      OnlyCancelAllKeepsStage(Run(EMPTY, init), last.0, last.1, op);
      if !last.0.DoCancelAll? {
        StageMeansCancelAll(init, op);
        var k :| 0 <= k < |init| && init[k].0.DoCancelAll?;
        assert commands[k] == init[k];
      }
    }
  }

  lemma {:induction false} NoneActiveCount(ops: seq<Operation>)
    requires forall i :: 0 <= i < |ops| ==> !ops[i].phase.IsActive()
    ensures CountActive(ops) == 0
  {
    if ops != [] {
      NoneActiveCount(ops[..|ops| - 1]);
    }
  }

  // ----- what operations hold -----

  /** A text as it is given, up to its first 512 characters. */
  ghost predicate IsCapped(stored: Option<string>, given: Option<string>) {
    && (stored.None? <==> given.None?)
    && (stored.Some? ==> stored.value == if |given.value| <= 512 then given.value else given.value[..512])
  }

  /** A new operation holds what `begin` was given, is running, and has no stage, progress or error. */
  lemma BegunOperation(r: Registry, kind: Kind, caption: Option<string>, cancellable: bool, now: nat)
    ensures var (result, r') := Begin(r, kind, caption, cancellable, now);
            result.Ok? ==>
              && r'.operations != [] && r'.nextId == result.value
              && var op := r'.operations[|r'.operations| - 1];
                 && op.id == result.value && op.kind == kind && op.cancellable == cancellable
                 && op.phase == Running && op.stage == None && op.progressPercent == None && op.error == None
                 && op.startedAtMs == op.updatedAtMs == now
                 && IsCapped(op.caption, caption)
  {
    hide Evicted, KindIsActive;
  }

  /** A running operation can be asked to cancel exactly when it was begun as cancellable. */
  lemma CancelAfterBegin(r: Registry, kind: Kind, caption: Option<string>, cancellable: bool, now: nat, later: nat)
    requires Inv(r) && r.nextId < U64_MAX
    ensures var (result, r') := Begin(r, kind, caption, cancellable, now);
            result.Ok? ==>
              var asked := Exec(r', DoRequestCancel(result.value), later).operations;
              && |asked| == |r'.operations| >= 1
              && asked[..|asked| - 1] == r'.operations[..|asked| - 1]
              && asked[|asked| - 1].phase == if cancellable then Cancelling else Running
  {
    hide Begin, Inv;
    var (result, r') := Begin(r, kind, caption, cancellable, now);
    BeginKeepsInv(r, kind, caption, cancellable, now);
    BegunOperation(r, kind, caption, cancellable, now);
    InvIsOrdered(r');
    if result.Ok? {
      FoundActive(r', |r'.operations| - 1);
    }
  }

  /** An update stores stage and progress, and the time, and changes nothing else. */
  lemma UpdateStores(r: Registry, i: nat, stage: Option<string>, progress: Option<real>, now: nat)
    requires Ordered(r) && i < |r.operations| && r.operations[i].phase.IsActive()
    ensures var op := r.operations[i];
            var after := Exec(r, DoUpdate(op.id, stage, progress), now);
            && after.nextId == r.nextId && |after.operations| == |r.operations|
            && (forall j :: 0 <= j < |r.operations| && j != i ==> after.operations[j] == r.operations[j])
            && var changed := after.operations[i];
               && changed == op.(stage := changed.stage, progressPercent := changed.progressPercent, updatedAtMs := now)
               && IsCapped(changed.stage, stage)
               && (changed.progressPercent.None? <==> progress.None?)
               && (progress.Some? ==>
                     changed.progressPercent == Some(if progress.value < 0.0 then 0.0
                                                     else if progress.value > 100.0 then 100.0 else progress.value))
  {
    FoundActive(r, i);
  }

  /** The whole of what the ending commands write: the rest of the operation stays as it was. */
  lemma EndingsStore(r: Registry, i: nat, message: string, failure: OperationError, now: nat)
    requires Ordered(r) && i < |r.operations| && r.operations[i].phase.IsActive()
    ensures var op := r.operations[i];
            && Exec(r, DoSucceed(op.id), now).operations ==
                 r.operations[i := op.(phase := Succeeded, stage := None, progressPercent := Some(100.0), error := None, updatedAtMs := now)]
            && Exec(r, DoFail(op.id, failure), now).operations ==
                 r.operations[i := op.(phase := Failed, stage := None, error := Some(failure), updatedAtMs := now)]
            && var cancelled := Exec(r, DoCancel(op.id, message), now).operations;
               && |cancelled| == |r.operations|
               && IsCancelError(cancelled[i].error, message)
               && cancelled == r.operations[i := op.(phase := Cancelled, stage := None, error := cancelled[i].error, updatedAtMs := now)]
  {
    FoundActive(r, i);
  }

  /** The error of a cancelled operation: its code, the message up to 512 characters, and no advice. */
  ghost predicate IsCancelError(error: Option<OperationError>, message: string) {
    && error.Some? && error.value.code == WasCancelled && !error.value.retryable && error.value.suggestedAction == None
    && IsCapped(Some(error.value.message), Some(message))
  }

  /** `cancel_all` writes the same error and time to every active operation. */
  lemma CancelAllStores(r: Registry, message: string, now: nat, i: nat)
    requires i < |r.operations| && r.operations[i].phase.IsActive()
    ensures var after := Exec(r, DoCancelAll(message), now).operations[i];
            && IsCancelError(after.error, message)
            && after == r.operations[i].(phase := Cancelled, error := after.error, updatedAtMs := now)
  {
  }

  /** Commands for an id that is not active change nothing. */
  lemma StaleCommandsChangeNothing(r: Registry, id: nat, command: Command, now: nat)
    requires forall i :: 0 <= i < |r.operations| && r.operations[i].id == id ==> !r.operations[i].phase.IsActive()
    requires match command
             case DoUpdate(target, _, _) => target == id
             case DoRequestCancel(target) => target == id
             case DoRejectCancel(target) => target == id
             case DoSucceed(target) => target == id
             case DoCancel(target, _) => target == id
             case DoFail(target, _) => target == id
             case _ => false
    ensures Exec(r, command, now) == r
  {
  }

  /** Ids go up by one, and from the largest back to 1. */
  lemma FollowingIds(id: nat)
    requires id <= U64_MAX
    ensures FollowingId(id) == if id == 0xFFFF_FFFF_FFFF_FFFF then 1 else id + 1
  {
  }

  ghost function IndicesOf(ops: seq<Operation>, p: Operation -> bool): set<int> {
    set i | 0 <= i < |ops| && p(ops[i])
  }

  /** The summary counts are the numbers of active and of failed operations. */
  lemma {:induction false} CountsAreNumbers(ops: seq<Operation>)
    ensures CountActive(ops) == |IndicesOf(ops, (op: Operation) => op.phase == Running || op.phase == Cancelling)|
    ensures CountFailed(ops) == |IndicesOf(ops, (op: Operation) => op.phase == Failed)|
  {
    if ops != [] {
      CountsAreNumbers(ops[..|ops| - 1]);
      IndicesStep(ops, (op: Operation) => op.phase == Running || op.phase == Cancelling);
      IndicesStep(ops, (op: Operation) => op.phase == Failed);
    }
  }

  lemma IndicesStep(ops: seq<Operation>, p: Operation -> bool)
    requires ops != []
    ensures |IndicesOf(ops, p)| == |IndicesOf(ops[..|ops| - 1], p)| + if p(ops[|ops| - 1]) then 1 else 0
  {
    var n := |ops| - 1;
    assert IndicesOf(ops, p) == IndicesOf(ops[..n], p) + if p(ops[n]) then {n} else {};
  }

  /** At most 32 operations are retained. */
  lemma AtMost32Retained(commands: seq<(Command, nat)>)
    requires |commands| <= U64_MAX
    ensures |Run(EMPTY, commands).operations| <= 32
  {
    hide Run;
    RunKeepsInv(commands);
  }

  /** A begin is refused as busy, and otherwise forgets nothing but, of 32 operations, the oldest that has ended. */
  lemma BeginForgetsOldestEnded(r: Registry, kind: Kind, caption: Option<string>, cancellable: bool, now: nat)
    requires Inv(r)
    ensures var (result, r') := Begin(r, kind, caption, cancellable, now);
            && (result.Err? ==> result.error.code == Busy && !result.error.retryable && result.error.suggestedAction == None)
            && (result.Ok? ==>
                  && |r'.operations| >= 1
                  && var kept := r'.operations[..|r'.operations| - 1];
                     if |r.operations| < 32 then kept == r.operations
                     else exists i: nat :: IsOldestEnded(r.operations, i) && kept == r.operations[..i] + r.operations[i + 1..])
  {
    hide Evicted, KindIsActive;
    RoomCanBeMade(r.operations);
    if |r.operations| == 32 {
      assert IsOldestEnded(r.operations, FirstFinished(r.operations).value);
    }
  }

  ghost predicate IsOldestEnded(ops: seq<Operation>, i: nat) {
    i < |ops| && !ops[i].phase.IsActive() && forall j :: 0 <= j < i ==> ops[j].phase.IsActive()
  }
}
