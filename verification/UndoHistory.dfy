// The undo reducer (src/useUndoHistory.ts:14-69). T stands for values other than `undefined`.
module UndoHistory {
  import opened Prelude

  const DEFAULT_LIMIT: int := 100
  const DEFAULT_MERGE_WINDOW_MS: int := 750

  datatype State<T> = State(past: seq<T>, present: T, future: seq<T>, mergeKey: Option<string>, mergedAt: int)

  datatype Change<!T> = Value(value: T) | Apply(update: T -> T)

  datatype Action<!T> =
    | Update(change: Change<T>, mergeKey: Option<string>, timestamp: int, limit: Option<int>, mergeWindowMs: Option<int>)
    | Reset(value: T)
    | Undo
    | Redo

  function Create<T>(value: T): State<T> {
    State([], value, [], None, 0)
  }

  function NextValue<T>(change: Change<T>, present: T): T {
    match change
    case Value(v) => v
    case Apply(f) => f(present)
  }

  /** An empty merge key is falsy, so it never merges, yet it is recorded. */
  predicate Merges<T>(s: State<T>, mergeKey: Option<string>, timestamp: int, window: int) {
    mergeKey.Some? && mergeKey.value != "" && mergeKey == s.mergeKey && timestamp - s.mergedAt <= window
  }

  function WindowOf<T>(a: Action<T>): int
    requires a.Update?
  {
    if a.mergeWindowMs.None? then DEFAULT_MERGE_WINDOW_MS else a.mergeWindowMs.value
  }

  function LimitOf<T>(a: Action<T>): (limit: nat)
    requires a.Update?
    ensures limit >= 1
  {
    Max(1, if a.limit.None? then DEFAULT_LIMIT else a.limit.value)
  }

  function Reduce<T(==)>(s: State<T>, a: Action<T>): State<T> {
    match a
    case Reset(value) => Create(value)
    case Undo =>
      if s.past == [] then s
      else
        var last := |s.past| - 1;
        State(s.past[..last], s.past[last], [s.present] + s.future, None, 0)
    case Redo =>
      if s.future == [] then s
      else State(s.past + [s.present], s.future[0], s.future[1..], None, 0)
    case Update(change, mergeKey, timestamp, _, _) =>
      var next := NextValue(change, s.present);
      if next == s.present then s
      else
        var past := if Merges(s, mergeKey, timestamp, WindowOf(a)) then s.past
                    else Suffix(s.past + [s.present], LimitOf(a));
        State(past, next, [], mergeKey, timestamp)
  }

  function Run<T(==)>(s: State<T>, actions: seq<Action<T>>): State<T>
    decreases |actions|
  {
    if actions == [] then s else Reduce(Run(s, actions[..|actions| - 1]), actions[|actions| - 1])
  }

  lemma RunAppend<T>(s: State<T>, actions: seq<Action<T>>, a: Action<T>)
    ensures Run(s, actions + [a]) == Reduce(Run(s, actions), a)
  {
    assert (actions + [a])[..|actions|] == actions;
  }

  // ----- the reference model: a timeline with a cursor -----

  datatype Timeline<T> = Timeline(items: seq<T>, cursor: nat)

  function Abstract<T>(s: State<T>): (t: Timeline<T>)
    ensures t.cursor < |t.items| && t.items[t.cursor] == s.present
  {
    Timeline(s.past + [s.present] + s.future, |s.past|)
  }

  /** Undo and redo only move the cursor; an edit forgets what lies ahead and, past the limit, the oldest entries. */
  function Move<T(==)>(t: Timeline<T>, a: Action<T>, merges: bool): Timeline<T>
    requires t.cursor < |t.items|
  {
    match a
    case Reset(value) => Timeline([value], 0)
    case Undo => t.(cursor := if t.cursor == 0 then 0 else t.cursor - 1)
    case Redo => t.(cursor := if t.cursor + 1 == |t.items| then t.cursor else t.cursor + 1)
    case Update(change, _, _, _, _) =>
      var next := NextValue(change, t.items[t.cursor]);
      if next == t.items[t.cursor] then t
      else if merges then Timeline(t.items[..t.cursor] + [next], t.cursor)
      else
        var kept := Suffix(t.items[..t.cursor + 1], LimitOf(a));
        Timeline(kept + [next], |kept|)
  }

  /** The zipper refines the timeline, action by action. */
  lemma ReduceRefinesTimeline<T>(s: State<T>, a: Action<T>)
    ensures var merges := a.Update? && Merges(s, a.mergeKey, a.timestamp, WindowOf(a));
            Abstract(Reduce(s, a)) == Move(Abstract(s), a, merges)
  {
    var t := Abstract(s);
    match a
    case Reset(value) =>
    case Undo =>
      if s.past != [] {
        var last := |s.past| - 1;
        assert s.past == s.past[..last] + [s.past[last]];
        assert Abstract(Reduce(s, a)).items == t.items;
      }
    case Redo =>
      if s.future != [] {
        assert s.future == [s.future[0]] + s.future[1..];
        assert Abstract(Reduce(s, a)).items == t.items;
      }
    case Update(change, mergeKey, timestamp, _, _) =>
      assert t.items[..t.cursor] == s.past;
      assert t.items[..t.cursor + 1] == s.past + [s.present];
      var next := NextValue(change, s.present);
      assert s.past + [next] + [] == s.past + [next];
      var kept := Suffix(s.past + [s.present], LimitOf(a));
      assert kept + [next] + [] == kept + [next];
  }

  // ----- invariants of every reachable state -----

  /** All updates of the run use at most this limit. */
  ghost predicate LimitedBy<T(!new)>(actions: seq<Action<T>>, limit: nat) {
    forall i :: 0 <= i < |actions| && actions[i].Update? ==> LimitOf(actions[i]) <= limit
  }

  ghost predicate Inv<T>(s: State<T>, limit: nat) {
    && |s.past| + |s.future| <= limit
    && (s.mergeKey.Some? ==> s.future == [] && s.past != [])
  }

  lemma {:induction false} ReachableInv<T(!new)>(value: T, actions: seq<Action<T>>, limit: nat)
    requires LimitedBy(actions, limit)
    ensures Inv(Run(Create(value), actions), limit)
    decreases |actions|
  {
    if actions != [] {
      var init := actions[..|actions| - 1];
      assert LimitedBy(init, limit);
      ReachableInv(value, init, limit);
      var a := actions[|actions| - 1];
      assert a.Update? ==> LimitOf(a) <= limit;
    }
  }

  // ----- undoing and redoing -----

  function Times<T>(a: Action<T>, k: nat): seq<Action<T>> {
    if k == 0 then [] else Times(a, k - 1) + [a]
  }

  lemma EmptyRun<T>(s: State<T>)
    ensures Run(s, []) == s
    ensures Abstract(s) == Timeline(Abstract(s).items, |s.past|)
  {
  }

  lemma AbstractParts<T>(s: State<T>)
    ensures Abstract(s).cursor == |s.past| && |Abstract(s).items| == |s.past| + 1 + |s.future|
  {
  }

  lemma UndoStep<T>(s: State<T>)
    ensures var r := Reduce(s, Undo);
            && Abstract(r) == Abstract(s).(cursor := if s.past == [] then |s.past| else |s.past| - 1)
            && (if s.past == [] then r == s else r.mergeKey == None && r.mergedAt == 0)
  {
    ReduceRefinesTimeline(s, Undo);
  }

  lemma RedoStep<T>(s: State<T>)
    ensures var r := Reduce(s, Redo);
            && Abstract(r) == Abstract(s).(cursor := if s.future == [] then |s.past| else |s.past| + 1)
            && (if s.future == [] then r == s else r.mergeKey == None && r.mergedAt == 0)
  {
    ReduceRefinesTimeline(s, Redo);
  }

  lemma {:induction false} RunUndos<T>(s: State<T>, k: nat)
    ensures var r := Run(s, Times(Undo, k));
            var steps := Min(k, |s.past|);
            && Abstract(r) == Timeline(Abstract(s).items, |s.past| - steps)
            && (if steps == 0 then r == s else r.mergeKey == None && r.mergedAt == 0)
  {
    hide Reduce, Run, Abstract;
    if k == 0 {
      EmptyRun(s);
    } else {
      RunUndos(s, k - 1);
      RunAppend(s, Times(Undo, k - 1), Undo);
      UndoStep(Run(s, Times(Undo, k - 1)));
      AbstractParts(s);
      AbstractParts(Run(s, Times(Undo, k - 1)));
    }
  }

  lemma {:induction false} RunRedos<T>(s: State<T>, k: nat)
    ensures var r := Run(s, Times(Redo, k));
            var steps := Min(k, |s.future|);
            && Abstract(r) == Timeline(Abstract(s).items, |s.past| + steps)
            && (if steps == 0 then r == s else r.mergeKey == None && r.mergedAt == 0)
  {
    hide Reduce, Run, Abstract;
    if k == 0 {
      EmptyRun(s);
    } else {
      RunRedos(s, k - 1);
      RunAppend(s, Times(Redo, k - 1), Redo);
      RedoStep(Run(s, Times(Redo, k - 1)));
      AbstractParts(s);
      AbstractParts(Run(s, Times(Redo, k - 1)));
    }
  }

  lemma AbstractIsInjective<T>(s: State<T>, t: State<T>)
    requires Abstract(s) == Abstract(t)
    ensures s.past == t.past && s.present == t.present && s.future == t.future
  {
    var a := Abstract(s);
    assert s.past == a.items[..a.cursor] && t.past == a.items[..a.cursor];
    assert s.future == a.items[a.cursor + 1..] && t.future == a.items[a.cursor + 1..];
  }

  /** k undos then k redos restore past, present and future, exactly when there are k steps to undo or nothing to redo. */
  lemma UndoRedoRestoresIff<T>(s: State<T>, k: nat)
    ensures var r := Run(Run(s, Times(Undo, k)), Times(Redo, k));
            (r.past == s.past && r.present == s.present && r.future == s.future)
            <==> k <= |s.past| || s.future == []
  {
    var undone := Run(s, Times(Undo, k));
    RunUndos(s, k);
    RunRedos(undone, k);
    var r := Run(undone, Times(Redo, k));
    assert |Abstract(undone).items| == |s.past| + 1 + |s.future|;
    if k <= |s.past| || s.future == [] {
      AbstractIsInjective(r, s);
    }
  }

  // ----- bursts -----

  datatype Edit<!T> = Edit(change: Change<T>, timestamp: int)

  function AsUpdate<T>(edit: Edit<T>, key: string, limit: Option<int>, window: int): Action<T> {
    Update(edit.change, Some(key), edit.timestamp, limit, Some(window))
  }

  /** The state after the first n edits, all under one merge key. */
  function Burst<T(==)>(s: State<T>, edits: seq<Edit<T>>, n: nat, key: string, limit: Option<int>, window: int): State<T>
    requires n <= |edits|
  {
    if n == 0 then s else Reduce(Burst(s, edits, n - 1, key, limit, window), AsUpdate(edits[n - 1], key, limit, window))
  }

  // ----- a burst without the reducer: values, times of change, and where steps open -----

  /** The value after the first n edits. */
  function ValueAfter<T>(present: T, edits: seq<Edit<T>>, n: nat): T
    requires n <= |edits|
  {
    if n == 0 then present else NextValue(edits[n - 1].change, ValueAfter(present, edits, n - 1))
  }

  predicate Changes<T(==)>(present: T, edits: seq<Edit<T>>, i: nat)
    requires i < |edits|
  {
    ValueAfter(present, edits, i + 1) != ValueAfter(present, edits, i)
  }

  /** When the last of the first n edits that changed anything did so, if one did. */
  function LastChange<T(==)>(present: T, edits: seq<Edit<T>>, n: nat): Option<int>
    requires n <= |edits|
  {
    if n == 0 then None
    else if Changes(present, edits, n - 1) then Some(edits[n - 1].timestamp)
    else LastChange(present, edits, n - 1)
  }

  /** Edit i changes the value, and not within the window of the change before it. */
  predicate OpensStep<T(==)>(present: T, edits: seq<Edit<T>>, i: nat, window: int)
    requires i < |edits|
  {
    var before := LastChange(present, edits, i);
    Changes(present, edits, i) && (before.Some? ==> edits[i].timestamp - before.value > window)
  }

  /** The values that the first n edits should leave behind to return to. */
  function Openings<T(==)>(present: T, edits: seq<Edit<T>>, n: nat, window: int): (values: seq<T>)
    requires n <= |edits|
    ensures |values| <= n
  {
    if n == 0 then []
    else Openings(present, edits, n - 1, window)
         + if OpensStep(present, edits, n - 1, window) then [ValueAfter(present, edits, n - 1)] else []
  }

  /** Every edit after the first that changes the value follows the previous such edit within the window. */
  predicate WithinWindow<T(==)>(present: T, edits: seq<Edit<T>>, n: nat, window: int)
    requires n <= |edits|
  {
    forall i :: 1 <= i < n ==> !OpensStep(present, edits, i, window)
  }

  /** The burst starts a step of its own: its first edit changes the value and does not merge into what was there. */
  predicate Opens<T(==)>(s: State<T>, edits: seq<Edit<T>>, key: string, window: int) {
    && key != "" && edits != [] && Changes(s.present, edits, 0)
    && !Merges(s, Some(key), edits[0].timestamp, window)
  }

  lemma SuffixAppend<T>(a: seq<T>, x: T, n: nat)
    ensures Suffix(Suffix(a, n) + [x], n) == Suffix(a + [x], n)
  {
  }

  /** One edit of a burst: it opens a step, merges, or does nothing. */
  lemma BurstStep<T>(s: State<T>, before: State<T>, edits: seq<Edit<T>>, n: nat, key: string, limit: Option<int>, window: int)
    requires n < |edits| && Opens(s, edits, key, window)
    requires before.present == ValueAfter(s.present, edits, n)
    requires if n == 0 then before == s
             else before.mergeKey == Some(key) && Some(before.mergedAt) == LastChange(s.present, edits, n) && before.future == []
    ensures var r := Reduce(before, AsUpdate(edits[n], key, limit, window));
            && r.present == ValueAfter(s.present, edits, n + 1)
            && r.mergeKey == Some(key) && Some(r.mergedAt) == LastChange(s.present, edits, n + 1) && r.future == []
            && r.past == if OpensStep(s.present, edits, n, window)
                         then Suffix(before.past + [before.present], LimitOf(AsUpdate(edits[n], key, limit, window)))
                         else before.past
  {
  }

  /** What a burst leaves behind, whatever the limit: the value before each opened step, and nothing else. */
  lemma {:induction false} BurstLeavesOpenings<T>(s: State<T>, edits: seq<Edit<T>>, n: nat, key: string, limit: Option<int>, window: int)
    requires 1 <= n <= |edits| && Opens(s, edits, key, window)
    ensures var r := Burst(s, edits, n, key, limit, window);
            && r.past == Suffix(s.past + Openings(s.present, edits, n, window), LimitOf(AsUpdate(edits[0], key, limit, window)))
            && r.present == ValueAfter(s.present, edits, n)
            && r.mergeKey == Some(key) && Some(r.mergedAt) == LastChange(s.present, edits, n) && r.future == []
  {
    hide Reduce, Suffix;
    var before := Burst(s, edits, n - 1, key, limit, window);
    var most := LimitOf(AsUpdate(edits[0], key, limit, window));
    if n == 1 {
      assert OpensStep(s.present, edits, 0, window);
      assert Openings(s.present, edits, 0, window) == [];
      assert Openings(s.present, edits, 1, window) == [s.present];
    } else {
      BurstLeavesOpenings(s, edits, n - 1, key, limit, window);
      var values := Openings(s.present, edits, n - 1, window);
      SuffixAppend(s.past + values, before.present, most);
      assert (s.past + values) + [before.present] == s.past + (values + [before.present]);
      assert s.past + (values + []) == s.past + values;
    }
    BurstStep(s, before, edits, n - 1, key, limit, window);
  }

  lemma {:induction false} OneOpeningIff<T>(present: T, edits: seq<Edit<T>>, n: nat, window: int)
    requires 1 <= n <= |edits| && Changes(present, edits, 0)
    ensures 1 <= |Openings(present, edits, n, window)|
    ensures |Openings(present, edits, n, window)| == 1 <==> WithinWindow(present, edits, n, window)
    ensures Openings(present, edits, n, window)[0] == present
  {
    hide OpensStep;
    if n == 1 {
      assert OpensStep(present, edits, 0, window) by {
        FirstOpens(present, edits, window);
      }
      assert Openings(present, edits, 0, window) == [];
    } else {
      OneOpeningIff(present, edits, n - 1, window);
      assert WithinWindow(present, edits, n, window)
        <==> WithinWindow(present, edits, n - 1, window) && !OpensStep(present, edits, n - 1, window);
    }
  }

  lemma FirstOpens<T>(present: T, edits: seq<Edit<T>>, window: int)
    requires edits != [] && Changes(present, edits, 0)
    ensures OpensStep(present, edits, 0, window)
  {
  }

  /**
   * A burst is one step, undone by a single undo, exactly when every change in it follows the one before within
   * the window; otherwise it is more. This is so until the limit drops steps.
   */
  lemma BurstIsOneStepIff<T>(s: State<T>, edits: seq<Edit<T>>, key: string, limit: Option<int>, window: int)
    requires Opens(s, edits, key, window)
    ensures var r := Burst(s, edits, |edits|, key, limit, window);
            var within := WithinWindow(s.present, edits, |edits|, window);
            && (within ==> Reduce(r, Undo).present == s.present)
            && (|s.past| + |edits| <= LimitOf(AsUpdate(edits[0], key, limit, window)) ==>
                  && |s.past| + 1 <= |r.past| <= |s.past| + |edits|
                  && (|r.past| == |s.past| + 1 <==> within))
  {
    hide Openings, WithinWindow, Burst;
    BurstLeavesOpenings(s, edits, |edits|, key, limit, window);
    OneOpeningIff(s.present, edits, |edits|, window);
    var values := Openings(s.present, edits, |edits|, window);
    assert values[0] == s.present;
  }

  /** An edit that changes nothing does not extend the window: the next one, within the window of it, still starts a new step. */
  lemma UnchangedEditDoesNotExtendWindow()
    ensures var s := Create(0);
            var edits := [Edit(Value(1), 0), Edit(Value(1), 500), Edit(Value(2), 1000)];
            var r := Burst(s, edits, 3, "k", None, DEFAULT_MERGE_WINDOW_MS);
            edits[1].timestamp - edits[0].timestamp <= DEFAULT_MERGE_WINDOW_MS
            && edits[2].timestamp - edits[1].timestamp <= DEFAULT_MERGE_WINDOW_MS
            && Reduce(r, Undo).present == 1 != s.present
  {
    var s := Create(0);
    var edits := [Edit(Value(1), 0), Edit(Value(1), 500), Edit(Value(2), 1000)];
    var w := DEFAULT_MERGE_WINDOW_MS;
    assert Burst(s, edits, 0, "k", None, w) == s;
    assert Burst(s, edits, 1, "k", None, w) == State([0], 1, [], Some("k"), 0);
    assert Burst(s, edits, 2, "k", None, w) == State([0], 1, [], Some("k"), 0);
  }

  // ----- edits -----

  /** An edit belongs to the step before it: the same non-empty key, and within the window, 750 ms unless given. */
  ghost predicate Continues<T>(s: State<T>, mergeKey: Option<string>, timestamp: int, window: Option<int>) {
    && s.mergeKey.Some? && s.mergeKey.value != "" && mergeKey == s.mergeKey
    && timestamp - s.mergedAt <= if window.None? then 750 else window.value
  }

  /** What an edit does: nothing if the value is the same; otherwise it drops the future and opens a step, unless it continues one. */
  lemma EditIs<T>(s: State<T>, value: T, mergeKey: Option<string>, timestamp: int, limit: Option<int>, window: Option<int>)
    ensures var r := Reduce(s, Update(Value(value), mergeKey, timestamp, limit, window));
            var most := if limit.None? then 100 else if limit.value < 1 then 1 else limit.value;
            if value == s.present then r == s
            else
              && r.present == value && r.future == [] && r.mergeKey == mergeKey && r.mergedAt == timestamp
              && r.past == if Continues(s, mergeKey, timestamp, window) then s.past else Suffix(s.past + [s.present], most)
  {
  }

  /** An edit by function is the edit to what the function gives. */
  lemma ApplyIsEdit<T>(s: State<T>, f: T -> T, mergeKey: Option<string>, timestamp: int, limit: Option<int>, window: Option<int>)
    ensures Reduce(s, Update(Apply(f), mergeKey, timestamp, limit, window))
         == Reduce(s, Update(Value(f(s.present)), mergeKey, timestamp, limit, window))
  {
  }

  /** An edit that does not continue a step is undone by one undo, whatever its key; one that does is undone with it. */
  lemma OneUndoPerStep<T>(s: State<T>, value: T, mergeKey: Option<string>, timestamp: int, limit: Option<int>, window: Option<int>)
    requires value != s.present
    ensures var r := Reduce(s, Update(Value(value), mergeKey, timestamp, limit, window));
            var undone := Reduce(r, Undo);
            if Continues(s, mergeKey, timestamp, window) then
              s.past != [] ==> undone.present == s.past[|s.past| - 1] && undone.past == s.past[..|s.past| - 1]
            else undone.present == s.present && undone.future == [value]
  {
    EditIs(s, value, mergeKey, timestamp, limit, window);
  }

  /** Two edits under different keys are two steps, however close together. */
  lemma DifferentKeysStayApart()
    ensures var first := Reduce(Create(0), Update(Value(1), Some("move:a"), 1000, None, None));
            var second := Reduce(first, Update(Value(2), Some("move:b"), 1100, None, None));
            Reduce(second, Undo).present == 1
  {
    assert "move:a"[5] != "move:b"[5];
    var first := Reduce(Create(0), Update(Value(1), Some("move:a"), 1000, None, None));
    EditIs(first, 2, Some("move:b"), 1100, None, None);
  }

  /** A reset forgets everything but the value it is given. */
  lemma ResetForgets<T>(s: State<T>, value: T)
    ensures var r := Reduce(s, Reset(value));
            r.present == value && r.past == [] && r.future == [] && r.mergeKey == None
            && Reduce(r, Undo) == r && Reduce(r, Redo) == r
  {
  }

  /** Undoing and redoing end a burst: no edit continues it. */
  lemma MovingEndsBurst<T>(s: State<T>, mergeKey: Option<string>, timestamp: int, window: Option<int>)
    ensures s.past != [] ==> !Continues(Reduce(s, Undo), mergeKey, timestamp, window)
    ensures s.future != [] ==> !Continues(Reduce(s, Redo), mergeKey, timestamp, window)
  {
  }
}
