// The transfer activity slot (crates/devicehub-core/src/storage.rs:183-289): a mutex around the
// view, and two atomics that `is_cancelled` reads without taking it.
module TransferSlot {
  import opened Prelude

  datatype State = Idle | Running | Succeeded | Cancelled | Failed

  /** The calls that hold the mutex, each waiting to perform its next store. */
  datatype Lock =
    | Free
    | StartClear(id: nat)
    | StartActivate(id: nat)
    | StartPublish(id: nat)
    | FinishDeactivate
    | CancelRaise
    | ResetClear
    | ResetDeactivate
    | ResetPublish

  /** `id` and `state` are the view's; a finished view keeps its id. */
  datatype Core = Core(id: nat, state: State, activeId: nat, cancelled: bool, lock: Lock)

  const INITIAL_CORE := Core(0, Idle, 0, false, Free)

  datatype Act =
    | Start
    | Finish(id: nat, outcome: State)
    | Cancel
    | Reset
    | Advance     // the lock holder performs its next store

  /** `view.id.wrapping_add(1).max(1)` on a u64. */
  function FollowingId(id: nat): (next: nat)
    ensures next >= 1
  {
    Max((id + 1) % (U64_MAX + 1), 1)
  }

  /** Taking the lock is possible only while it is free; a call that has nothing to do releases it at once. */
  function CoreStep(c: Core, act: Act): Core {
    match act
    case Start => if c.lock != Free then c else c.(lock := StartClear(FollowingId(c.id)))
    case Finish(id, outcome) =>
      if c.lock != Free || c.id != id || c.state != Running || outcome == Idle || outcome == Running then c
      else c.(state := outcome, lock := FinishDeactivate)
    case Cancel => if c.lock != Free || c.state != Running then c else c.(lock := CancelRaise)
    case Reset => if c.lock != Free then c else c.(lock := ResetClear)
    case Advance =>
      match c.lock
      case Free => c
      case StartClear(id) => c.(cancelled := false, lock := StartActivate(id))
      case StartActivate(id) => c.(activeId := id, lock := StartPublish(id))
      case StartPublish(id) => c.(id := id, state := Running, lock := Free)
      case FinishDeactivate => c.(activeId := 0, lock := Free)
      case CancelRaise => c.(cancelled := true, lock := Free)
      case ResetClear => c.(cancelled := false, lock := ResetDeactivate)
      case ResetDeactivate => c.(activeId := 0, lock := ResetPublish)
      case ResetPublish => c.(id := 0, state := Idle, lock := Free)
  }

  /** A call that nobody interleaves with: it takes the lock and performs its stores, at most three. */
  function Uninterrupted(c: Core, call: Act): Core {
    var c1 := CoreStep(c, call);
    var c2 := CoreStep(c1, Advance);
    var c3 := CoreStep(c2, Advance);
    CoreStep(c3, Advance)
  }

  // ----- the slot as the program holds it -----

  datatype Kind = Export | Import

  datatype Transfer = Transfer(bytes: nat, files: nat, directories: nat)

  datatype View = View(
    id: nat,
    kind: Option<Kind>,
    state: State,
    path: Option<string>,
    bytesTransferred: nat,
    bytesTotal: Option<nat>,
    filesTransferred: nat,
    directoriesTransferred: nat,
    error: Option<string>)

  const DEFAULT_VIEW := View(0, None, Idle, None, 0, None, 0, 0, None)

  const CANCELLED_TEXT := "device file transfer cancelled"

  predicate OccursAt(text: string, part: string, i: int) {
    0 <= i <= |text| - |part| && text[i..i + |part|] == part
  }

  predicate Contains(text: string, part: string) {
    exists i :: 0 <= i <= |text| && OccursAt(text, part, i)
  }

  function OutcomeOf(result: Result<(), string>): State {
    match result
    case Ok(_) => Succeeded
    case Err(error) => if Contains(error, CANCELLED_TEXT) then Cancelled else Failed
  }

  /** An error is a cancellation exactly when it has the cancellation text somewhere in it. */
  lemma CancellationIff(error: string)
    ensures OutcomeOf(Ok(())) == Succeeded
    ensures OutcomeOf(Err(error)) ==
              if exists before: string, after: string :: error == before + "device file transfer cancelled" + after
              then Cancelled else Failed
  {
    var part := "device file transfer cancelled";
    if Contains(error, part) {
      var i :| 0 <= i <= |error| && OccursAt(error, part, i);
      assert error == error[..i] + part + error[i + |part|..];
    }
    forall before: string, after: string | error == before + part + after ensures Contains(error, part) {
      assert error[|before|..|before| + |part|] == part;
      assert OccursAt(error, part, |before|);
    }
  }

  /** Ids go up by one, and from the largest back to 1: never 0, which means that no transfer is active. */
  lemma FollowingIds(id: nat)
    requires id <= U64_MAX
    ensures FollowingId(id) == if id == 0xFFFF_FFFF_FFFF_FFFF then 1 else id + 1
  {
  }

  class DeviceFileActivitySlot {
    var view: View
    var activeId: nat
    var cancelled: bool

    function Abs(): Core
      reads this
    {
      Core(view.id, view.state, activeId, cancelled, Free)
    }

    constructor ()
      ensures view == DEFAULT_VIEW && Abs() == INITIAL_CORE
    {
      view, activeId, cancelled := DEFAULT_VIEW, 0, false;
    }

    method StartTransfer(kind: Kind, path: string) returns (id: nat)
      modifies this
      ensures Abs() == Uninterrupted(old(Abs()), Start)
      ensures id == view.id == activeId
      ensures view == DEFAULT_VIEW.(id := id, kind := Some(kind), state := Running, path := Some(path))
    {
      id := FollowingId(view.id);
      cancelled := false;
      activeId := id;
      view := DEFAULT_VIEW.(id := id, kind := Some(kind), state := Running, path := Some(path));
    }

    method Update(id: nat, transfer: Transfer)
      modifies this`view
      ensures Abs() == old(Abs())
      ensures view == if old(view.id) == id && old(view.state) == Running
                      then old(view).(bytesTransferred := transfer.bytes, filesTransferred := transfer.files,
                                      directoriesTransferred := transfer.directories)
                      else old(view)
    {
      if view.id == id && view.state == Running {
        view := view.(bytesTransferred := transfer.bytes, filesTransferred := transfer.files,
                      directoriesTransferred := transfer.directories);
      }
    }

    method SetTotal(id: nat, bytesTotal: nat)
      modifies this`view
      ensures Abs() == old(Abs())
      ensures view == if old(view.id) == id && old(view.state) == Running
                      then old(view).(bytesTotal := Some(bytesTotal)) else old(view)
    {
      if view.id == id && view.state == Running {
        view := view.(bytesTotal := Some(bytesTotal));
      }
    }

    method FinishTransfer(id: nat, result: Result<(), string>)
      modifies this`view, this`activeId
      ensures Abs() == Uninterrupted(old(Abs()), Finish(id, OutcomeOf(result)))
      ensures view ==
                if old(view.id) != id || old(view.state) != Running then old(view)
                else match OutcomeOf(result)
                  case Succeeded =>
                    old(view).(state := Succeeded,
                               bytesTransferred := if old(view.bytesTotal).Some? then old(view.bytesTotal).value
                                                   else old(view.bytesTransferred))
                  case Failed => old(view).(state := Failed, error := Some(Prefix(result.error, 512)))
                  case outcome => old(view).(state := outcome)
    {
      if view.id != id || view.state != Running {
        return;
      }
      match result {
        case Ok(_) =>
          view := view.(state := Succeeded);
          if view.bytesTotal.Some? {
            view := view.(bytesTransferred := view.bytesTotal.value);
          }
        case Err(error) =>
          if Contains(error, CANCELLED_TEXT) {
            view := view.(state := Cancelled);
          } else {
            view := view.(state := Failed, error := Some(Prefix(error, 512)));
          }
      }
      activeId := 0;
    }

    method CancelTransfer() returns (accepted: bool)
      modifies this`cancelled
      ensures Abs() == Uninterrupted(old(Abs()), Cancel)
      ensures accepted <==> view.state == Running
    {
      if view.state != Running {
        return false;
      }
      cancelled := true;
      return true;
    }

    method ResetSlot()
      modifies this
      ensures Abs() == Uninterrupted(old(Abs()), Reset)
      ensures view == DEFAULT_VIEW
    {
      cancelled := false;
      activeId := 0;
      view := DEFAULT_VIEW;
    }
  }

  // ----- the atomics as a history of stores -----

  datatype Event =
    | Cleared(startOf: Option<nat>)    // cancelled := false, by start(id) or by reset
    | Activated(id: nat)               // active_id := id
    | Deactivated                      // active_id := 0
    | Raised(target: nat)              // cancelled := true, while `target` was the running view

  function StoreOf(c: Core): Option<Event> {
    match c.lock
    case StartClear(id) => Some(Cleared(Some(id)))
    case StartActivate(id) => Some(Activated(id))
    case FinishDeactivate => Some(Deactivated)
    case CancelRaise => Some(Raised(c.id))
    case ResetClear => Some(Cleared(None))
    case ResetDeactivate => Some(Deactivated)
    case _ => None
  }

  function ActiveAt(trace: seq<Event>): nat {
    if trace == [] then 0
    else match trace[|trace| - 1]
      case Activated(id) => id
      case Deactivated => 0
      case _ => ActiveAt(trace[..|trace| - 1])
  }

  /** The transfer at which the flag now in force was aimed, if the flag is up. */
  function TargetAt(trace: seq<Event>): Option<nat> {
    if trace == [] then None
    else match trace[|trace| - 1]
      case Raised(target) => Some(target)
      case Cleared(_) => None
      case _ => TargetAt(trace[..|trace| - 1])
  }

  // ----- interleaving with readers -----

  /** A call of `is_cancelled(id)`: `since` and `until` say how many stores each load came after. */
  datatype Reader =
    | Matched(id: nat, since: nat)
    | Answered(id: nat, since: nat, until: nat, value: bool)

  datatype World = World(core: Core, trace: seq<Event>, readers: map<nat, Reader>)

  const INITIAL := World(INITIAL_CORE, [], map[])

  datatype Step =
    | ByLock(act: Act)
    | FirstLoad(reader: nat, id: nat)
    | SecondLoad(reader: nat)

  function Next(w: World, step: Step): World {
    match step
    case ByLock(act) =>
      var store := if act == Advance then StoreOf(w.core) else None;
      w.(core := CoreStep(w.core, act),
         trace := if store.Some? then w.trace + [store.value] else w.trace)
    case FirstLoad(reader, id) =>
      var now := |w.trace|;
      w.(readers := w.readers[reader := if w.core.activeId == id then Matched(id, now) else Answered(id, now, now, false)])
    case SecondLoad(reader) =>
      if reader in w.readers && w.readers[reader].Matched? then
        var r := w.readers[reader];
        w.(readers := w.readers[reader := Answered(r.id, r.since, |w.trace|, w.core.cancelled)])
      else w
  }

  function Run(steps: seq<Step>): World
    decreases |steps|
  {
    if steps == [] then INITIAL else Next(Run(steps[..|steps| - 1]), steps[|steps| - 1])
  }

  // ----- the invariant -----

  ghost predicate Settled(c: Core) {
    c.activeId == (if c.state == Running then c.id else 0) && (c.state == Running ==> c.id >= 1)
  }

  ghost predicate LockInv(c: Core) {
    match c.lock
    case Free => Settled(c)
    case StartClear(id) => Settled(c) && id >= 1
    case StartActivate(id) => Settled(c) && id >= 1 && !c.cancelled
    case StartPublish(id) => c.activeId == id >= 1 && !c.cancelled
    case FinishDeactivate => c.state != Running
    case CancelRaise => Settled(c) && c.state == Running
    case ResetClear => Settled(c)
    case ResetDeactivate => !c.cancelled
    case ResetPublish => c.activeId == 0 && !c.cancelled
  }

  /** Stores happen in the order the calls prescribe. */
  ghost predicate InOrder(trace: seq<Event>, k: nat)
    requires k < |trace|
  {
    && (trace[k].Activated? ==> trace[k].id >= 1 && k >= 1 && trace[k - 1] == Cleared(Some(trace[k].id)))
    && (trace[k].Raised? ==> trace[k].target >= 1 && ActiveAt(trace[..k]) == trace[k].target)
  }

  ghost predicate TraceInv(trace: seq<Event>) {
    forall k {:trigger InOrder(trace, k)} :: 0 <= k < |trace| ==> InOrder(trace, k)
  }

  ghost predicate ReaderInv(r: Reader, trace: seq<Event>) {
    match r
    case Matched(id, since) => since <= |trace| && ActiveAt(trace[..since]) == id
    case Answered(id, since, until, value) =>
      && since <= until <= |trace|
      && (value <==> ActiveAt(trace[..since]) == id && TargetAt(trace[..until]).Some?)
  }

  ghost predicate Inv(w: World) {
    && LockInv(w.core)
    && (w.core.lock.StartActivate? ==> w.trace != [] && w.trace[|w.trace| - 1] == Cleared(Some(w.core.lock.id)))
    && w.core.activeId == ActiveAt(w.trace)
    && (w.core.cancelled <==> TargetAt(w.trace).Some?)
    && TraceInv(w.trace)
    && forall r :: r in w.readers ==> ReaderInv(w.readers[r], w.trace)
  }

  lemma StoreKeepsTrace(trace: seq<Event>, store: Event)
    requires TraceInv(trace)
    requires store.Activated? ==> store.id >= 1 && trace != [] && trace[|trace| - 1] == Cleared(Some(store.id))
    requires store.Raised? ==> store.target >= 1 && ActiveAt(trace) == store.target
    ensures TraceInv(trace + [store])
  {
    var more := trace + [store];
    forall k: nat {:trigger InOrder(more, k)} | k < |more| ensures InOrder(more, k) {
      assert more[..k] == trace[..k];
      if k < |trace| {
        assert InOrder(trace, k);
      } else {
        assert trace[..k] == trace;
      }
    }
  }

  lemma ActiveAfter(trace: seq<Event>, store: Event)
    ensures ActiveAt(trace + [store]) == match store
              case Activated(id) => id
              case Deactivated => 0
              case _ => ActiveAt(trace)
    ensures TargetAt(trace + [store]) == match store
              case Raised(target) => Some(target)
              case Cleared(_) => None
              case _ => TargetAt(trace)
  {
    assert (trace + [store])[..|trace|] == trace;
  }

  lemma StoreKeepsReader(r: Reader, trace: seq<Event>, store: Event)
    requires ReaderInv(r, trace)
    ensures ReaderInv(r, trace + [store])
  {
    PrefixKept(trace, trace + [store], r.since);
    if r.Answered? {
      PrefixKept(trace, trace + [store], r.until);
    }
  }

  lemma LockStepKeepsInv(w: World, act: Act)
    requires Inv(w)
    ensures Inv(Next(w, ByLock(act)))
  {
    hide ActiveAt, TargetAt, TraceInv;
    var store := if act == Advance then StoreOf(w.core) else None;
    if store.Some? {
      ActiveAfter(w.trace, store.value);
      StoreKeepsTrace(w.trace, store.value);
      assert (w.trace + [store.value])[..|w.trace|] == w.trace;
      forall r | r in w.readers ensures ReaderInv(w.readers[r], w.trace + [store.value]) {
        StoreKeepsReader(w.readers[r], w.trace, store.value);
      }
    }
  }

  lemma PrefixKept(trace: seq<Event>, more: seq<Event>, k: nat)
    requires k <= |trace| && trace <= more
    ensures more[..k] == trace[..k]
  {
  }

  lemma LoadKeepsInv(w: World, step: Step)
    requires Inv(w) && !step.ByLock?
    ensures Inv(Next(w, step))
  {
    assert w.trace[..|w.trace|] == w.trace;
  }

  lemma {:induction false} RunKeepsInv(steps: seq<Step>)
    ensures Inv(Run(steps))
    decreases |steps|
  {
    if steps != [] {
      var before := Run(steps[..|steps| - 1]);
      RunKeepsInv(steps[..|steps| - 1]);
      match steps[|steps| - 1]
      case ByLock(act) => LockStepKeepsInv(before, act);
      case other => LoadKeepsInv(before, other);
    }
  }

  // ----- reading a history -----

  /** The flag is up because of one raise with no clear after it. */
  lemma {:induction false} RaisedBy(trace: seq<Event>) returns (j: nat)
    requires TargetAt(trace).Some?
    ensures j < |trace| && trace[j] == Raised(TargetAt(trace).value)
    ensures forall i :: j < i < |trace| ==> !trace[i].Cleared? && !trace[i].Raised?
  {
    var last := |trace| - 1;
    if trace[last].Raised? {
      j := last;
    } else {
      j := RaisedBy(trace[..last]);
    }
  }

  lemma {:induction false} ActivatedBy(trace: seq<Event>) returns (j: nat)
    requires ActiveAt(trace) != 0
    ensures j < |trace| && trace[j] == Activated(ActiveAt(trace))
    ensures forall i :: j < i < |trace| ==> !trace[i].Activated? && !trace[i].Deactivated?
  {
    var last := |trace| - 1;
    if trace[last].Activated? {
      j := last;
    } else {
      j := ActivatedBy(trace[..last]);
    }
  }

  lemma PrefixTraceInv(trace: seq<Event>, n: nat)
    requires TraceInv(trace) && n <= |trace|
    ensures TraceInv(trace[..n])
  {
    forall k: nat {:trigger InOrder(trace[..n], k)} | k < n ensures InOrder(trace[..n], k) {
      assert trace[..n][..k] == trace[..k];
      assert InOrder(trace, k);
    }
  }

  /** While a transfer is active, a raised flag is aimed at it: nothing is cancelled on behalf of another. */
  lemma FlagIsAimed(trace: seq<Event>)
    requires TraceInv(trace)
    requires ActiveAt(trace) != 0 && TargetAt(trace).Some?
    ensures TargetAt(trace) == Some(ActiveAt(trace))
  {
    var last := |trace| - 1;
    assert InOrder(trace, last);
  }

  lemma {:induction false} ActiveUnchanged(trace: seq<Event>, begin: nat, end: nat)
    requires begin <= end <= |trace|
    requires forall k :: begin <= k < end ==> !trace[k].Activated? && !trace[k].Deactivated?
    ensures ActiveAt(trace[..end]) == ActiveAt(trace[..begin])
    decreases end
  {
    if begin < end {
      assert trace[..end][..end - 1] == trace[..end - 1];
      ActiveUnchanged(trace, begin, end - 1);
    }
  }

  lemma {:induction false} FlagStaysUp(trace: seq<Event>, begin: nat, end: nat)
    requires begin <= end <= |trace|
    requires TargetAt(trace[..begin]).Some?
    requires forall k :: begin <= k < end ==> !trace[k].Cleared?
    ensures TargetAt(trace[..end]).Some?
    decreases end
  {
    if begin < end {
      assert trace[..end][..end - 1] == trace[..end - 1];
      FlagStaysUp(trace, begin, end - 1);
    }
  }

  // ----- main results, over every interleaving -----

  ghost predicate HasAnswer(steps: seq<Step>, reader: nat, a: Reader) {
    a.Answered? && reader in Run(steps).readers && Run(steps).readers[reader] == a
  }

  /** `true` for id >= 1 means that some cancel stored its flag after every clear of the flag by start(id), of which there is one. */
  lemma TrueMeansCancelledSinceStart(steps: seq<Step>, reader: nat, a: Reader) returns (clear: nat, raise: nat)
    requires HasAnswer(steps, reader, a) && a.value && a.id >= 1
    ensures var trace := Run(steps).trace;
            && clear < raise < a.until <= |trace|
            && trace[clear] == Cleared(Some(a.id))
            && trace[raise].Raised?
            && forall i :: 0 <= i < a.until && trace[i] == Cleared(Some(a.id)) ==> i < raise
  {
    hide Run, Next;
    RunKeepsInv(steps);
    var trace := Run(steps).trace;
    raise := RaisedBy(trace[..a.until]);
    var start := ActivatedBy(trace[..a.since]);
    assert InOrder(trace, start);
    clear := start - 1;
  }

  /** The last `Activated` store. */
  function LastActivation(trace: seq<Event>): (k: Option<nat>)
    ensures k.Some? ==> k.value < |trace| && trace[k.value].Activated?
    ensures forall i :: (if k.Some? then k.value else -1) < i < |trace| ==> !trace[i].Activated?
  {
    if trace == [] then None
    else if trace[|trace| - 1].Activated? then Some(|trace| - 1)
    else LastActivation(trace[..|trace| - 1])
  }

  /** The transfer activated last, whether or not it is still active. */
  function LastActivated(trace: seq<Event>): nat {
    var k := LastActivation(trace);
    if k.Some? then trace[k.value].id else 0
  }

  lemma {:induction false} ActiveIsLastActivated(trace: seq<Event>)
    requires ActiveAt(trace) != 0
    ensures ActiveAt(trace) == LastActivated(trace)
  {
    if !trace[|trace| - 1].Activated? {
      ActiveIsLastActivated(trace[..|trace| - 1]);
    }
  }

  /** A raised flag is always aimed at the transfer activated last, even after that one has finished. */
  lemma {:induction false} FlagTargetsLastActivated(trace: seq<Event>)
    requires TraceInv(trace) && TargetAt(trace).Some?
    ensures TargetAt(trace) == Some(LastActivated(trace))
  {
    var last := |trace| - 1;
    assert InOrder(trace, last);
    if trace[last].Raised? {
      ActiveIsLastActivated(trace[..last]);
    } else {
      PrefixTraceInv(trace, last);
      FlagTargetsLastActivated(trace[..last]);
    }
  }

  lemma {:induction false} LastActivationUnchanged(trace: seq<Event>, begin: nat, end: nat)
    requires begin <= end <= |trace|
    ensures LastActivation(trace[..end]) == LastActivation(trace[..begin])
       <==> forall k :: begin <= k < end ==> !trace[k].Activated?
    decreases end
  {
    if begin < end {
      assert trace[..end][..end - 1] == trace[..end - 1];
      LastActivationUnchanged(trace, begin, end - 1);
    }
  }

  /**
   * Exactly when a `true` answer is right. By number: it is aimed at id iff id was activated last before
   * the second load. By transfer, as a reset lets numbers recur: the cancel that it reports was aimed at the
   * transfer that the first load saw active iff no transfer was activated between the loads.
   */
  lemma TrueIsRightIff(steps: seq<Step>, reader: nat, a: Reader) returns (raise: nat)
    requires HasAnswer(steps, reader, a) && a.value && a.id >= 1
    ensures var trace := Run(steps).trace;
            && raise < a.until <= |trace| && a.since <= a.until
            && trace[raise].Raised? && TargetAt(trace[..a.until]) == Some(trace[raise].target)
            && (TargetAt(trace[..a.until]) == Some(a.id) <==> LastActivated(trace[..a.until]) == a.id)
            && (LastActivation(trace[..raise]) == LastActivation(trace[..a.since])
                <==> forall k :: a.since <= k < a.until ==> !trace[k].Activated?)
  {
    hide Run, Next;
    RunKeepsInv(steps);
    var trace := Run(steps).trace;
    raise := RaisedBy(trace[..a.until]);
    PrefixTraceInv(trace, a.until);
    FlagTargetsLastActivated(trace[..a.until]);
    RaiseFollowsActivations(trace, raise, a.until);
    LastActivationUnchanged(trace, raise, a.until);
    LastActivationUnchanged(trace, a.since, a.until);
  }

  /** No transfer is activated while the flag stays up, as each activation follows a clear. */
  lemma RaiseFollowsActivations(trace: seq<Event>, raise: nat, until: nat)
    requires TraceInv(trace) && raise < until <= |trace| && trace[raise].Raised?
    requires forall i :: raise < i < until ==> !trace[i].Cleared?
    ensures forall k :: raise <= k < until ==> !trace[k].Activated?
  {
    forall k | raise <= k < until ensures !trace[k].Activated? {
      assert InOrder(trace, k);
    }
  }

  /** If no transfer is activated between the loads, a `true` answer is aimed at id: finishing does not make it wrong. */
  lemma TrueIsRightUnlessOvertaken(steps: seq<Step>, reader: nat, a: Reader)
    requires HasAnswer(steps, reader, a) && a.value && a.id >= 1
    requires forall k :: a.since <= k < a.until ==> !(k < |Run(steps).trace| && Run(steps).trace[k].Activated?)
    ensures a.until <= |Run(steps).trace| && TargetAt(Run(steps).trace[..a.until]) == Some(a.id)
  {
    hide Run, Next;
    RunKeepsInv(steps);
    var trace := Run(steps).trace;
    PrefixTraceInv(trace, a.until);
    FlagTargetsLastActivated(trace[..a.until]);
    ActiveIsLastActivated(trace[..a.since]);
    LastActivationUnchanged(trace, a.since, a.until);
  }

  /** `true` is certain once a cancel has hit id, if no start, finish or reset stores anything until the answer. */
  lemma CancelIsSeen(steps: seq<Step>, reader: nat, a: Reader, raise: nat)
    requires HasAnswer(steps, reader, a)
    requires raise < a.since <= a.until <= |Run(steps).trace|
    requires Run(steps).trace[raise] == Raised(a.id)
    requires forall k :: raise < k < a.until ==> Run(steps).trace[k].Raised?
    ensures a.value
  {
    hide Run, Next;
    RunKeepsInv(steps);
    var trace := Run(steps).trace;
    assert InOrder(trace, raise);
    ActiveUnchanged(trace, raise, a.since);
    assert trace[..raise + 1][..raise] == trace[..raise];
    FlagStaysUp(trace, raise + 1, a.until);
  }

  /** A `false` answer is right at one of its two loads. */
  lemma FalseIsCurrent(steps: seq<Step>, reader: nat, a: Reader)
    requires HasAnswer(steps, reader, a) && !a.value
    ensures var trace := Run(steps).trace;
            a.since <= a.until <= |trace|
            && (ActiveAt(trace[..a.since]) != a.id || TargetAt(trace[..a.until]) == None)
  {
    hide Run, Next;
    RunKeepsInv(steps);
  }

  lemma RunAppend(steps: seq<Step>, step: Step)
    ensures Run(steps + [step]) == Next(Run(steps), step)
  {
    assert (steps + [step])[..|steps|] == steps;
  }

  lemma EmptyRun()
    ensures Run([]) == INITIAL
  {
  }

  lemma Append(steps: seq<Step>, step: Step) returns (more: seq<Step>)
    ensures Run(more) == Next(Run(steps), step)
  {
    more := steps + [step];
    RunAppend(steps, step);
  }

  /** A whole `start` that nobody interrupts. */
  lemma StartInRun(steps: seq<Step>) returns (more: seq<Step>)
    requires Run(steps).core.lock == Free
    ensures var w := Run(steps);
            var id := FollowingId(w.core.id);
            Run(more) == w.(core := Core(id, Running, id, false, Free), trace := w.trace + [Cleared(Some(id)), Activated(id)])
  {
    hide Run;
    var trace := Run(steps).trace;
    var id := FollowingId(Run(steps).core.id);
    more := Append(steps, ByLock(Start));
    more := Append(more, ByLock(Advance));
    more := Append(more, ByLock(Advance));
    more := Append(more, ByLock(Advance));
    assert trace + [Cleared(Some(id))] + [Activated(id)] == trace + [Cleared(Some(id)), Activated(id)];
  }

  /** A whole `finish` of the running transfer. */
  lemma FinishInRun(steps: seq<Step>, outcome: State) returns (more: seq<Step>)
    requires Run(steps).core.lock == Free && Run(steps).core.state == Running && outcome != Idle && outcome != Running
    ensures var w := Run(steps);
            Run(more) == w.(core := w.core.(state := outcome, activeId := 0), trace := w.trace + [Deactivated])
  {
    hide Run;
    more := Append(steps, ByLock(Finish(Run(steps).core.id, outcome)));
    more := Append(more, ByLock(Advance));
  }

  /** A whole `cancel` of the running transfer. */
  lemma CancelInRun(steps: seq<Step>) returns (more: seq<Step>)
    requires Run(steps).core.lock == Free && Run(steps).core.state == Running
    ensures var w := Run(steps);
            Run(more) == w.(core := w.core.(cancelled := true), trace := w.trace + [Raised(w.core.id)])
  {
    hide Run;
    more := Append(steps, ByLock(Cancel));
    more := Append(more, ByLock(Advance));
  }

  /** Transfer 1, never cancelled, can be told `true`: it is overtaken by transfer 2, which is cancelled between its loads. */
  lemma OvertakenReaderSeesOtherCancel() returns (steps: seq<Step>)
    ensures HasAnswer(steps, 0, Answered(1, 2, 6, true))
    ensures Run(steps).trace == [Cleared(Some(1)), Activated(1), Deactivated, Cleared(Some(2)), Activated(2), Raised(2)]
  {
    hide Run;
    EmptyRun();
    steps := StartInRun([]);
    steps := Append(steps, FirstLoad(0, 1));
    assert Run(steps).readers == map[0 := Matched(1, 2)];
    steps := FinishInRun(steps, Succeeded);
    steps := StartInRun(steps);
    assert Run(steps).core == Core(2, Running, 2, false, Free);
    steps := CancelInRun(steps);
    steps := Append(steps, SecondLoad(0));
  }
}
