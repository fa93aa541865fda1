// The polling client of the device-log buffer (src/components/DeviceLogsPage.tsx:90-165)
// and the server it reads, as one state machine whose steps interleave freely.
module LogDelivery {
  import opened Prelude
  import opened LogText
  import opened DeviceLogs
  import Text

  const MAX_PAGES: nat := 4
  const CLIENT_ENTRY_LIMIT: nat := 2000

  /** One page request: sent with a cursor, then answered by a snapshot taken at some later moment. */
  datatype Wire = Requested(after: Option<nat>) | Answered(batch: Batch)

  /** The local variables of a `refresh` that is awaiting a response. */
  datatype Refresh = Refresh(generation: nat, page: nat, received: seq<Entry>, lagged: bool, wire: Wire)

  datatype Client = Client(
    cursor: Option<nat>,
    entries: seq<Entry>,
    gapDetected: bool,
    generation: nat,
    refresh: Option<Refresh>)

  /**
   * Server, client and history. `published` is everything ever stored, `log` everything the
   * client committed since it last cleared, and `lost` says that since then a refresh that had
   * already taken in a page was abandoned.
   */
  datatype World = World(server: Buffer, client: Client, published: seq<Entry>, log: seq<Entry>, lost: bool)

  const INITIAL := World(EMPTY_BUFFER, Client(None, [], false, 0, None), [], [], false)

  datatype Step =
    | Server(op: ServerOp)
    | Begin               // the timer fires and no refresh is running
    | Serve(streaming: bool)
    | Receive
    | Drop                // the request throws, or the effect is disposed
    | LocalClear          // after a successful DELETE

  /** Handling a response runs without interruption up to the next request or the commit. */
  function Received(c: Client): Client
    requires c.refresh.Some? && c.refresh.value.wire.Answered?
  {
    var r := c.refresh.value;
    var batch := r.wire.batch;
    if r.generation != c.generation then c.(refresh := None)
    else
      var cursor :=
        if batch.entries != [] then Some(batch.entries[|batch.entries| - 1].sequence)
        else if c.cursor == None then batch.latestSequence
        else c.cursor;
      var received := r.received + batch.entries;
      var lagged := r.lagged || batch.cursorLagged;
      if batch.hasMore && r.page + 1 < MAX_PAGES then
        c.(cursor := cursor,
           refresh := Some(Refresh(r.generation, r.page + 1, received, lagged, Requested(cursor))))
      else
        c.(cursor := cursor,
           gapDetected := c.gapDetected || lagged,
           entries := if received == [] then c.entries else Suffix(c.entries + received, CLIENT_ENTRY_LIMIT),
           refresh := None)
  }

  /** The refresh in flight will still be committed. */
  predicate Active(c: Client) {
    c.refresh.Some? && c.refresh.value.generation == c.generation
  }

  function InFlight(c: Client): seq<Entry> {
    if Active(c) then c.refresh.value.received else []
  }

  /** Steps that are not enabled leave the world unchanged. */
  function Next(w: World, step: Step): World {
    var c := w.client;
    match step
    case Server(op) =>
      w.(server := Apply(w.server, op), published := Record(w.published, w.server, op))
    case Begin =>
      if c.refresh.Some? then w
      else w.(client := c.(refresh := Some(Refresh(c.generation, 0, [], false, Requested(c.cursor)))))
    case Serve(streaming) =>
      if c.refresh.Some? && c.refresh.value.wire.Requested? then
        var batch := Snapshot(w.server, c.refresh.value.wire.after, 500, streaming);
        w.(client := c.(refresh := Some(c.refresh.value.(wire := Answered(batch)))))
      else w
    case Receive =>
      if c.refresh.Some? && c.refresh.value.wire.Answered? then
        var c' := Received(c);
        var committed := if Active(c) && c'.refresh.None? then InFlight(c) + c.refresh.value.wire.batch.entries else [];
        w.(client := c', log := w.log + committed)
      else w
    case Drop =>
      w.(client := c.(refresh := None), lost := w.lost || InFlight(c) != [])
    case LocalClear =>
      w.(client := c.(cursor := None, entries := [], gapDetected := false, generation := c.generation + 1),
         log := [],
         lost := false)
  }

  function Run(w: World, steps: seq<Step>): World
    decreases |steps|
  {
    if steps == [] then w else Next(Run(w, steps[..|steps| - 1]), steps[|steps| - 1])
  }

  lemma RunAppend(w: World, steps: seq<Step>, step: Step)
    ensures Run(w, steps + [step]) == Next(Run(w, steps), step)
  {
    hide Next;
    assert (steps + [step])[..|steps|] == steps;
  }

  // ----- properties of entry sequences -----

  ghost predicate Increasing(entries: seq<Entry>) {
    forall i, j :: 0 <= i < j < |entries| ==> entries[i].sequence < entries[j].sequence
  }

  ghost predicate Contiguous(entries: seq<Entry>) {
    forall i :: 0 <= i < |entries| ==> entries[i].sequence == entries[0].sequence + i
  }

  ghost predicate JumpAt(entries: seq<Entry>, i: nat)
    requires 1 <= i < |entries|
  {
    entries[i].sequence != entries[i - 1].sequence + 1
  }

  /** Some entry from index `from` on does not directly follow its predecessor. */
  ghost predicate HasJump(entries: seq<Entry>, from: nat) {
    exists i: nat :: Max(1, from) <= i < |entries| && JumpAt(entries, i)
  }

  function LastSequence(entries: seq<Entry>): nat
    requires entries != []
  {
    entries[|entries| - 1].sequence
  }

  // ----- the invariant -----

  /** What a page tells a client whose cursor is `cursor`, whenever the snapshot was taken. */
  ghost predicate Answers(batch: Batch, cursor: Option<nat>) {
    && Contiguous(batch.entries)
    && (batch.cursorLagged ==> cursor.Some? && batch.entries != [])
    && (cursor.None? && batch.entries == [] ==> batch.latestSequence == None)
    && (cursor.Some? && batch.entries != [] ==>
          && batch.entries[0].sequence > cursor.value
          && (batch.cursorLagged <==> batch.entries[0].sequence != cursor.value + 1))
  }

  function Taken(w: World): seq<Entry> {
    w.log + InFlight(w.client)
  }

  ghost predicate CursorInv(w: World) {
    var cursor := w.client.cursor;
    && (cursor.Some? ==> 1 <= cursor.value <= |w.published|)
    && (Taken(w) != [] ==> cursor.Some? && LastSequence(Taken(w)) <= cursor.value)
    && (!w.lost ==> cursor == if Taken(w) == [] then None else Some(LastSequence(Taken(w))))
  }

  ghost predicate RefreshInv(w: World) {
    && (w.client.refresh.Some? ==> w.client.refresh.value.generation <= w.client.generation)
    && (Active(w.client) ==>
          match w.client.refresh.value.wire
          case Requested(after) => after == w.client.cursor
          case Answered(batch) => Answers(batch, w.client.cursor) && Genuine(w.published, batch.entries))
  }

  ghost predicate FlagInv(w: World) {
    !w.lost ==>
      && (w.client.gapDetected <==> HasJump(w.log, 1))
      && (Active(w.client) ==> (w.client.refresh.value.lagged <==> HasJump(Taken(w), |w.log|)))
  }

  ghost predicate Inv(w: World) {
    && Retains(w.published, w.server)
    && Genuine(w.published, Taken(w))
    && Increasing(Taken(w))
    && w.client.entries == Suffix(w.log, CLIENT_ENTRY_LIMIT)
    && CursorInv(w)
    && RefreshInv(w)
    && FlagInv(w)
  }

  /** Where a snapshot starts reading, counted from the first entry ever stored. */
  function SliceStart(b: Buffer, cursor: Option<nat>): nat
    requires |b.entries| <= b.nextSequence
  {
    b.nextSequence - |b.entries| + match cursor
      case Some(c) => FirstAbove(b.entries, c)
      case None => if |b.entries| <= 500 then 0 else |b.entries| - 500
  }

  lemma SliceStartIs(b: Buffer, c: nat)
    requires Consecutive(b) && b.entries != []
    ensures SliceStart(b, Some(c)) == Max(b.nextSequence - |b.entries|, Min(c, b.nextSequence))
  {
    var i := FirstAbove(b.entries, c);
    if i < |b.entries| {
      assert b.entries[i].sequence > c;
    }
    if i > 0 {
      assert b.entries[i - 1].sequence <= c;
    }
  }

  /** A page is a slice of the buffer that starts right above the cursor. */
  lemma SnapshotIsSlice(b: Buffer, cursor: Option<nat>, streaming: bool)
    requires Consecutive(b)
    ensures var page := Snapshot(b, cursor, 500, streaming).entries;
            var lo := SliceStart(b, cursor);
            && |page| == Min(500, b.nextSequence - lo)
            && (forall i :: 0 <= i < |page| ==> page[i].sequence == lo + i + 1)
            && (forall e :: e in page ==> e in b.entries)
  {
    var start := SliceStart(b, cursor) - (b.nextSequence - |b.entries|);
    var page := Snapshot(b, cursor, 500, streaming).entries;
    assert page == Prefix(b.entries[start..], 500);
    forall i | 0 <= i < |page| ensures page[i].sequence == SliceStart(b, cursor) + i + 1 {
      assert page[i] == b.entries[start + i];
    }
  }

  lemma SnapshotAnswers(published: seq<Entry>, b: Buffer, cursor: Option<nat>, streaming: bool)
    requires Retains(published, b)
    requires cursor.Some? ==> 1 <= cursor.value <= |published|
    ensures Answers(Snapshot(b, cursor, 500, streaming), cursor)
    ensures Genuine(published, Snapshot(b, cursor, 500, streaming).entries)
  {
    hide SliceStart;
    SnapshotIsSlice(b, cursor, streaming);
    var batch := Snapshot(b, cursor, 500, streaming);
    forall i | 0 <= i < |batch.entries| ensures IsStored(published, batch.entries[i]) {
      assert batch.entries[i] in b.entries;
      var k :| 0 <= k < |b.entries| && b.entries[k] == batch.entries[i];
      assert IsStored(published, b.entries[k]);
    }
    if cursor.Some? && b.entries != [] {
      SliceStartIs(b, cursor.value);
    }
  }

  lemma GenuineConcat(published: seq<Entry>, a: seq<Entry>, b: seq<Entry>)
    requires Genuine(published, a) && Genuine(published, b)
    ensures Genuine(published, a + b)
  {
    forall i | 0 <= i < |a + b| ensures IsStored(published, (a + b)[i]) {
      if i < |a| {
        assert IsStored(published, a[i]);
      } else {
        assert IsStored(published, b[i - |a|]);
      }
    }
  }

  lemma SuffixOfSuffix<T>(a: seq<T>, b: seq<T>, n: nat)
    ensures Suffix(Suffix(a, n) + b, n) == Suffix(a + b, n)
  {
  }

  lemma ServerKeepsInv(w: World, op: ServerOp)
    requires Inv(w)
    requires |w.published| < U64_MAX
    ensures Inv(Next(w, Server(op)))
  {
    var w' := Next(w, Server(op));
    ApplyRetains(w.published, w.server, op);
    assert Taken(w') == Taken(w);
    GenuineGrows(w.published, w'.published, Taken(w));
    if Active(w.client) && w.client.refresh.value.wire.Answered? {
      GenuineGrows(w.published, w'.published, w.client.refresh.value.wire.batch.entries);
    }
  }

  /** Appending a page to what was taken adds a jump exactly when the page is flagged. */
  lemma PageJumps(taken: seq<Entry>, page: seq<Entry>, from: nat)
    requires from <= |taken|
    requires Contiguous(page)
    ensures HasJump(taken + page, from)
       <==> HasJump(taken, from)
            || (taken != [] && page != [] && page[0].sequence != LastSequence(taken) + 1)
  {
    var all := taken + page;
    if taken != [] && page != [] && page[0].sequence != LastSequence(taken) + 1 {
      assert JumpAt(all, |taken|);
    }
    if HasJump(taken, from) {
      var i: nat :| Max(1, from) <= i < |taken| && JumpAt(taken, i);
      assert JumpAt(all, i);
    }
    if HasJump(all, from) {
      var i: nat :| Max(1, from) <= i < |all| && JumpAt(all, i);
      if i < |taken| {
        assert JumpAt(taken, i);
      } else if i > |taken| {
        assert page[i - |taken|].sequence == page[i - |taken| - 1].sequence + 1;
      }
    }
  }

  lemma SplitJumps(log: seq<Entry>, more: seq<Entry>)
    ensures HasJump(log + more, 1) <==> HasJump(log, 1) || HasJump(log + more, |log|)
  {
    var all := log + more;
    if HasJump(all, 1) {
      var i: nat :| 1 <= i < |all| && JumpAt(all, i);
      if i < |log| {
        assert JumpAt(log, i);
      } else {
        assert Max(1, |log|) <= i;
      }
    }
    if HasJump(log, 1) {
      var i: nat :| 1 <= i < |log| && JumpAt(log, i);
      assert JumpAt(all, i);
    }
  }

  lemma AppendContiguous(taken: seq<Entry>, page: seq<Entry>)
    requires Increasing(taken) && Contiguous(page)
    requires taken != [] && page != [] ==> LastSequence(taken) < page[0].sequence
    ensures Increasing(taken + page)
  {
  }

  lemma StaleReceiveKeepsInv(w: World)
    requires Inv(w)
    requires w.client.refresh.Some? && w.client.refresh.value.wire.Answered?
    requires !Active(w.client)
    ensures Inv(Next(w, Receive))
  {
    var w' := Next(w, Receive);
    assert w'.log == w.log == Taken(w') == Taken(w);
  }

  /** The page that `Receive` takes in, and what it does to cursor and history. */
  lemma ReceiveTakesPage(w: World)
    requires Active(w.client) && w.client.refresh.value.wire.Answered?
    ensures var w' := Next(w, Receive);
            var page := w.client.refresh.value.wire.batch.entries;
            && w'.server == w.server && w'.published == w.published && w'.lost == w.lost
            && Taken(w') == Taken(w) + page
            && w'.log == (if Active(w'.client) then w.log else Taken(w'))
            && (page != [] ==> w'.client.cursor == Some(LastSequence(page)))
            && (page == [] && w.client.cursor.Some? ==> w'.client.cursor == w.client.cursor)
            && (page == [] && w.client.cursor.None? ==>
                  w'.client.cursor == w.client.refresh.value.wire.batch.latestSequence)
  {
    var w' := Next(w, Receive);
    var page := w.client.refresh.value.wire.batch.entries;
    assert w.log + (InFlight(w.client) + page) == Taken(w) + page;
  }

  lemma ReceiveKeepsTaken(w: World)
    requires Genuine(w.published, Taken(w)) && Increasing(Taken(w)) && CursorInv(w) && RefreshInv(w)
    requires Active(w.client) && w.client.refresh.value.wire.Answered?
    ensures var w' := Next(w, Receive);
            Genuine(w.published, Taken(w')) && Increasing(Taken(w')) && CursorInv(w')
  {
    hide Next, InFlight;
    var page := w.client.refresh.value.wire.batch.entries;
    ReceiveTakesPage(w);
    AppendContiguous(Taken(w), page);
    GenuineConcat(w.published, Taken(w), page);
    if page != [] {
      assert IsStored(w.published, page[|page| - 1]);
      assert LastSequence(Taken(w) + page) == LastSequence(page);
      assert page[|page| - 1].sequence == page[0].sequence + (|page| - 1);
    } else {
      assert Taken(w) + page == Taken(w);
    }
  }

  /** A page is flagged exactly when it opens with a jump, if the cursor still marks the last entry taken. */
  lemma FlagMarksJump(w: World)
    requires CursorInv(w) && RefreshInv(w) && !w.lost
    requires Active(w.client) && w.client.refresh.value.wire.Answered?
    ensures var batch := w.client.refresh.value.wire.batch;
            batch.cursorLagged
            <==> Taken(w) != [] && batch.entries != [] && batch.entries[0].sequence != LastSequence(Taken(w)) + 1
  {
  }

  lemma ReceiveKeepsFlags(w: World)
    requires CursorInv(w) && RefreshInv(w) && FlagInv(w) && !w.lost
    requires Active(w.client) && w.client.refresh.value.wire.Answered?
    ensures FlagInv(Next(w, Receive))
  {
    var page := w.client.refresh.value.wire.batch.entries;
    ReceiveTakesPage(w);
    FlagMarksJump(w);
    PageJumps(Taken(w), page, |w.log|);
    SplitJumps(w.log, InFlight(w.client) + page);
    assert w.log + (InFlight(w.client) + page) == Taken(w) + page;
  }

  lemma ReceiveKeepsEntries(w: World)
    requires w.client.entries == Suffix(w.log, CLIENT_ENTRY_LIMIT)
    requires Active(w.client) && w.client.refresh.value.wire.Answered?
    ensures Next(w, Receive).client.entries == Suffix(Next(w, Receive).log, CLIENT_ENTRY_LIMIT)
    ensures RefreshInv(Next(w, Receive))
  {
    var c := w.client;
    var received := c.refresh.value.received + c.refresh.value.wire.batch.entries;
    SuffixOfSuffix(w.log, received, CLIENT_ENTRY_LIMIT);
    assert received == [] ==> w.log + received == w.log;
    assert w.log + [] == w.log;
  }

  lemma ReceiveKeepsInv(w: World)
    requires Inv(w)
    requires Active(w.client) && w.client.refresh.value.wire.Answered?
    ensures Inv(Next(w, Receive))
  {
    hide Next;
    var w' := Next(w, Receive);
    ReceiveTakesPage(w);
    ReceiveKeepsTaken(w);
    ReceiveKeepsEntries(w);
    if !w.lost {
      ReceiveKeepsFlags(w);
    }
    assert FlagInv(w');
  }

  lemma BeginKeepsInv(w: World)
    requires Inv(w)
    ensures Inv(Next(w, Begin))
  {
    var w' := Next(w, Begin);
    assert Taken(w') == Taken(w);
    if w.client.refresh.None? {
      assert !HasJump(Taken(w'), |w.log|);
    }
  }

  lemma ServeKeepsInv(w: World, streaming: bool)
    requires Inv(w)
    ensures Inv(Next(w, Serve(streaming)))
  {
    var w' := Next(w, Serve(streaming));
    assert Taken(w') == Taken(w);
    if Active(w.client) && w.client.refresh.value.wire.Requested? {
      SnapshotAnswers(w.published, w.server, w.client.cursor, streaming);
    }
  }

  lemma DropKeepsInv(w: World)
    requires Inv(w)
    ensures Inv(Next(w, Drop))
  {
    var w' := Next(w, Drop);
    assert Taken(w') == w.log <= Taken(w);
    if !w'.lost {
      assert Taken(w) == w.log;
    }
  }

  lemma LocalClearKeepsInv(w: World)
    requires Inv(w)
    ensures Inv(Next(w, LocalClear))
  {
    assert Taken(Next(w, LocalClear)) == [];
  }

  lemma StepKeepsInv(w: World, step: Step)
    requires Inv(w)
    requires |w.published| < U64_MAX
    ensures Inv(Next(w, step))
  {
    match step
    case Server(op) => ServerKeepsInv(w, op);
    case Receive =>
      if w.client.refresh.Some? && w.client.refresh.value.wire.Answered? {
        if Active(w.client) {
          ReceiveKeepsInv(w);
        } else {
          StaleReceiveKeepsInv(w);
        }
      }
    case Begin => BeginKeepsInv(w);
    case Serve(streaming) => ServeKeepsInv(w, streaming);
    case Drop => DropKeepsInv(w);
    case LocalClear => LocalClearKeepsInv(w);
  }

  lemma PublishedGrows(w: World, step: Step)
    ensures |w.published| <= |Next(w, step).published| <= |w.published| + 1
  {
  }

  lemma InitialInv()
    ensures Inv(INITIAL)
  {
    assert Taken(INITIAL) == [];
  }

  lemma {:induction false} RunKeepsInv(steps: seq<Step>)
    requires |steps| <= U64_MAX
    ensures Inv(Run(INITIAL, steps))
    ensures |Run(INITIAL, steps).published| <= |steps|
    decreases |steps|
  {
    hide Next;
    if steps == [] {
      InitialInv();
    } else {
      var before := steps[..|steps| - 1];
      var step := steps[|steps| - 1];
      var w := Run(INITIAL, before);
      RunKeepsInv(before);
      assert Run(INITIAL, steps) == Next(w, step);
      StepKeepsInv(w, step);
      PublishedGrows(w, step);
    }
  }

  // ----- main results, over every interleaving -----

  /** What the client holds is strictly increasing and unaltered, in every run, dropped refreshes included. */
  lemma ReceivedIsFaithful(steps: seq<Step>)
    requires |steps| <= U64_MAX
    ensures var w := Run(INITIAL, steps);
            && Increasing(w.log)
            && Genuine(w.published, w.log)
            && w.client.entries == Suffix(w.log, 2000)
  {
    hide Run, Next;
    RunKeepsInv(steps);
    var w := Run(INITIAL, steps);
    forall i | 0 <= i < |w.log| ensures IsStored(w.published, w.log[i]) {
      assert IsStored(w.published, Taken(w)[i]);
    }
    assert forall i :: 0 <= i < |w.log| ==> w.log[i] == Taken(w)[i];
  }

  /** Without a dropped refresh nothing taken in is ever lost. */
  lemma {:induction false} NoDropNoLoss(steps: seq<Step>)
    requires Drop !in steps
    ensures !Run(INITIAL, steps).lost
    decreases |steps|
  {
    if steps != [] {
      assert steps[|steps| - 1] in steps;
      NoDropNoLoss(steps[..|steps| - 1]);
    }
  }

  // ----- when the gap indicator is right, dropped refreshes included -----

  /** How long the log was at each drop of a taken-in page, since the page was last cleared. */
  function NextDrops(drops: set<nat>, w: World, step: Step): set<nat> {
    match step
    case LocalClear => {}
    case Drop => if InFlight(w.client) != [] then drops + {|w.log|} else drops
    case _ => drops
  }

  function Drops(steps: seq<Step>): set<nat>
    decreases |steps|
  {
    if steps == [] then {}
    else
      var before := steps[..|steps| - 1];
      NextDrops(Drops(before), Run(INITIAL, before), steps[|steps| - 1])
  }

  /** Nothing is dropped before something is committed: a first page never announces more. */
  ghost predicate FirstPageInv(w: World, drops: set<nat>) {
    && (forall m :: m in drops ==> 1 <= m <= |w.log|)
    && (w.lost <==> drops != {})
    && (w.client.cursor.Some? ==> w.log != [])
    && (Active(w.client) && w.client.refresh.value.wire.Answered? && w.client.cursor.None? ==>
          !w.client.refresh.value.wire.batch.hasMore)
  }

  /** The cursor is ahead of the last entry taken exactly when nothing has been taken since a drop. */
  ghost predicate AheadInv(w: World, drops: set<nat>) {
    Taken(w) != [] ==>
      && w.client.cursor.Some?
      && (w.client.cursor.value != LastSequence(Taken(w)) <==> |Taken(w)| in drops)
  }

  /** A drop after which something was committed. */
  ghost predicate DropBefore(drops: set<nat>, length: nat) {
    exists m :: m in drops && m < length
  }

  ghost predicate JumpInv(w: World, drops: set<nat>) {
    && (HasJump(w.log, 1) <==> w.client.gapDetected || DropBefore(drops, |w.log|))
    && (Active(w.client) ==>
          (HasJump(Taken(w), |w.log|)
           <==> w.client.refresh.value.lagged || (|w.log| in drops && |w.log| < |Taken(w)|)))
  }

  ghost predicate DropInv(w: World, drops: set<nat>) {
    FirstPageInv(w, drops) && AheadInv(w, drops) && JumpInv(w, drops)
  }

  lemma ServeKeepsDropInv(w: World, drops: set<nat>, streaming: bool)
    requires DropInv(w, drops) && RefreshInv(w)
    ensures DropInv(Next(w, Serve(streaming)), drops)
  {
    hide Increasing, HasJump, Suffix, FirstAbove;
    assert Taken(Next(w, Serve(streaming))) == Taken(w);
  }

  lemma DropKeepsDropInv(w: World, drops: set<nat>)
    requires DropInv(w, drops) && CursorInv(w) && Increasing(Taken(w))
    ensures DropInv(Next(w, Drop), NextDrops(drops, w, Drop))
  {
    hide HasJump;
    var w' := Next(w, Drop);
    assert Taken(w') == w.log <= Taken(w);
    if InFlight(w.client) == [] {
      assert Taken(w) == w.log;
    } else if w.log != [] {
      assert LastSequence(w.log) == Taken(w)[|w.log| - 1].sequence < LastSequence(Taken(w));
    }
  }

  lemma BeginKeepsDropInv(w: World, drops: set<nat>)
    requires DropInv(w, drops)
    ensures DropInv(Next(w, Begin), drops)
  {
    assert Taken(Next(w, Begin)) == Taken(w);
    assert w.client.refresh.None? ==> !HasJump(Taken(w), |w.log|);
  }

  lemma ReceiveKeepsAhead(w: World, drops: set<nat>)
    requires DropInv(w, drops) && RefreshInv(w)
    requires Active(w.client) && w.client.refresh.value.wire.Answered?
    ensures FirstPageInv(Next(w, Receive), drops) && AheadInv(Next(w, Receive), drops)
  {
    hide HasJump, JumpInv;
    var page := w.client.refresh.value.wire.batch.entries;
    var w' := Next(w, Receive);
    ReceiveTakesPage(w);
    if page == [] {
      assert Taken(w') == Taken(w);
    } else {
      assert LastSequence(Taken(w')) == LastSequence(page);
      assert |Taken(w')| > |Taken(w)| >= |w.log|;
    }
  }

  /** The jumps of a page are those that its flag or an earlier drop accounts for. */
  lemma ReceivedJumps(w: World, drops: set<nat>)
    requires DropInv(w, drops) && CursorInv(w) && RefreshInv(w)
    requires Active(w.client) && w.client.refresh.value.wire.Answered?
    ensures var all := Taken(w) + w.client.refresh.value.wire.batch.entries;
            HasJump(all, |w.log|)
            <==> w.client.refresh.value.lagged || w.client.refresh.value.wire.batch.cursorLagged
                 || (|w.log| in drops && |w.log| < |all|)
  {
    hide HasJump;
    PageJumps(Taken(w), w.client.refresh.value.wire.batch.entries, |w.log|);
  }

  lemma ReceiveKeepsJumps(w: World, drops: set<nat>)
    requires DropInv(w, drops) && CursorInv(w) && RefreshInv(w)
    requires Active(w.client) && w.client.refresh.value.wire.Answered?
    ensures JumpInv(Next(w, Receive), drops)
  {
    hide HasJump, AheadInv, Suffix;
    var page := w.client.refresh.value.wire.batch.entries;
    ReceiveTakesPage(w);
    ReceivedJumps(w, drops);
    SplitJumps(w.log, InFlight(w.client) + page);
    assert w.log + (InFlight(w.client) + page) == Taken(w) + page;
  }

  lemma StepKeepsDropInv(w: World, drops: set<nat>, step: Step)
    requires Inv(w) && DropInv(w, drops)
    ensures DropInv(Next(w, step), NextDrops(drops, w, step))
  {
    hide HasJump, Increasing, Genuine, Retains, Suffix, Apply, Record;
    match step
    case Server(op) => assert Taken(Next(w, step)) == Taken(w);
    case Begin => BeginKeepsDropInv(w, drops);
    case Serve(streaming) => ServeKeepsDropInv(w, drops, streaming);
    case Receive =>
      if Active(w.client) && w.client.refresh.value.wire.Answered? {
        ReceiveKeepsAhead(w, drops);
        ReceiveKeepsJumps(w, drops);
      } else {
        assert Next(w, step).log == w.log;
        assert Taken(Next(w, step)) == Taken(w);
      }
    case Drop => DropKeepsDropInv(w, drops);
    case LocalClear => NothingDropped(Next(w, step));
  }

  lemma NothingDropped(w: World)
    requires w.log == [] && w.client.cursor == None && !w.client.gapDetected && !Active(w.client) && !w.lost
    ensures DropInv(w, {})
  {
  }

  lemma {:induction false} RunKeepsDropInv(steps: seq<Step>)
    requires |steps| <= U64_MAX
    ensures DropInv(Run(INITIAL, steps), Drops(steps))
    decreases |steps|
  {
    hide Next, NextDrops, Inv, DropInv;
    if steps == [] {
      NothingDropped(INITIAL);
    } else {
      var before := steps[..|steps| - 1];
      RunKeepsInv(before);
      RunKeepsDropInv(before);
      StepKeepsDropInv(Run(INITIAL, before), Drops(before), steps[|steps| - 1]);
    }
  }

  /**
   * Exactly when the gap indicator is right, over every run. It is never lit falsely. It is wrong iff it is off
   * and something was committed after a page taken in was dropped; so never while nothing was.
   */
  lemma GapIndicatorIsExact(steps: seq<Step>)
    requires |steps| <= U64_MAX
    ensures var w := Run(INITIAL, steps);
            && (Drop !in steps ==> !w.lost)
            && (w.lost <==> Drops(steps) != {})
            && (!w.lost ==> (w.client.gapDetected <==> HasJump(w.log, 1)))
            && (w.client.gapDetected ==> HasJump(w.log, 1))
            && ((w.client.gapDetected <==> HasJump(w.log, 1))
                <==> w.client.gapDetected || forall m :: m in Drops(steps) ==> m == |w.log|)
  {
    hide Run, Drops, HasJump;
    if Drop !in steps {
      NoDropNoLoss(steps);
    }
    RunKeepsDropInv(steps);
    var w := Run(INITIAL, steps);
    assert DropBefore(Drops(steps), |w.log|) <==> !(forall m :: m in Drops(steps) ==> m == |w.log|);
  }

  /** The log is an unbroken stretch of what the server stored. */
  ghost predicate IsStretch(log: seq<Entry>, published: seq<Entry>)
    requires log != []
  {
    var first := log[0].sequence;
    1 <= first && first - 1 + |log| <= |published| && log == published[first - 1..first - 1 + |log|]
  }

  /** Nothing is missing inside the log exactly when no gap is shown and nothing was committed after a drop. */
  lemma NothingMissingIff(steps: seq<Step>)
    requires |steps| <= U64_MAX
    ensures var w := Run(INITIAL, steps);
            w.log != [] ==>
              (IsStretch(w.log, w.published) <==> !w.client.gapDetected && forall m :: m in Drops(steps) ==> m == |w.log|)
  {
    hide Run, Next, Drops, IsStretch, HasJump;
    var w := Run(INITIAL, steps);
    RunKeepsInv(steps);
    RunKeepsDropInv(steps);
    ReceivedIsFaithful(steps);
    assert DropBefore(Drops(steps), |w.log|) <==> !(forall m :: m in Drops(steps) ==> m == |w.log|);
    if w.log != [] {
      StretchIffNoJump(w.log, w.published);
    }
  }

  lemma StretchIffNoJump(log: seq<Entry>, published: seq<Entry>)
    requires log != [] && Genuine(published, log) && Numbered(published)
    ensures IsStretch(log, published) <==> !HasJump(log, 1)
  {
    var first := log[0].sequence;
    assert IsStored(published, log[0]);
    if !HasJump(log, 1) {
      NoJumpIsContiguous(log);
      assert IsStored(published, log[|log| - 1]);
      forall i | 0 <= i < |log| ensures log[i] == published[first - 1 + i] {
        assert IsStored(published, log[i]);
      }
    }
  }

  lemma {:induction false} NoJumpIsContiguous(entries: seq<Entry>)
    requires !HasJump(entries, 1)
    ensures Contiguous(entries)
    decreases |entries|
  {
    if |entries| > 1 {
      var last := |entries| - 1;
      var init := entries[..last];
      if HasJump(init, 1) {
        var i: nat :| 1 <= i < |init| && JumpAt(init, i);
        assert JumpAt(entries, i);
      }
      NoJumpIsContiguous(init);
      assert !JumpAt(entries, last);
    }
  }

  /**
   * Page by page, in any reachable state: a page that is about to be taken in opens with a jump
   * iff it is flagged as lagging or the cursor has run ahead of the last entry taken. Unless a page taken in
   * was dropped, it does so iff it is flagged.
   */
  lemma PageJumpIffLaggedOrAhead(steps: seq<Step>)
    requires |steps| <= U64_MAX
    ensures var w := Run(INITIAL, steps);
            Active(w.client) && w.client.refresh.value.wire.Answered? && Taken(w) != []
              && w.client.refresh.value.wire.batch.entries != [] ==>
              var batch := w.client.refresh.value.wire.batch;
              && Contiguous(batch.entries)
              && w.client.cursor.Some?
              && (batch.entries[0].sequence != LastSequence(Taken(w)) + 1
                  <==> batch.cursorLagged || w.client.cursor.value != LastSequence(Taken(w)))
              && (!w.lost ==> (batch.entries[0].sequence != LastSequence(Taken(w)) + 1 <==> batch.cursorLagged))
  {
    hide Run, Next;
    RunKeepsInv(steps);
  }

  // ----- an undisturbed refresh catches up -----

  /** A refresh with a quiet server, after `pages` pages. */
  function Quiet(w: World, pages: nat): World {
    if pages == 0 then Next(w, Begin) else Next(Next(Quiet(w, pages - 1), Serve(true)), Receive)
  }

  /** The client waits for the answer to its page number `page`, with everything up to `reached` taken in. */
  ghost predicate Waiting(w: World, start: World, page: nat, cursor: Option<nat>)
    requires |start.server.entries| <= start.server.nextSequence
  {
    var lo := SliceStart(start.server, start.client.cursor);
    && lo + 500 * page <= |start.published|
    && InFlight(w.client) == start.published[lo..lo + 500 * page] && w.log == start.log
    && w.server == start.server && w.published == start.published
    && Active(w.client)
    && w.client.cursor == cursor
    && w.client.refresh.value.page == page
    && w.client.refresh.value.wire == Requested(cursor)
  }

  /** A page consists of what was stored from its start on. */
  lemma PageIsPublished(published: seq<Entry>, b: Buffer, cursor: Option<nat>)
    requires Retains(published, b)
    ensures var lo := SliceStart(b, cursor);
            lo <= |published| &&
            var batch := Snapshot(b, cursor, 500, true);
            var end := Min(lo + 500, |published|);
            && batch.entries == published[lo..end]
            && (batch.hasMore <==> lo + 500 < |published|)
            && (lo < |published| ==> batch.entries != [] && LastSequence(batch.entries) == end)
  {
    hide Snapshot, SliceStart;
    SliceStartInBuffer(b, cursor);
    MoreIffBeyond(b, cursor);
    SnapshotIsSlice(b, cursor, true);
    var page := Snapshot(b, cursor, 500, true).entries;
    var lo := SliceStart(b, cursor);
    forall i | 0 <= i < |page| ensures page[i] == published[lo + i] {
      assert page[i] in b.entries;
      var k :| 0 <= k < |b.entries| && b.entries[k] == page[i];
      assert IsStored(published, b.entries[k]);
    }
  }

  lemma RetainsAtMostIssued(published: seq<Entry>, b: Buffer)
    requires Retains(published, b)
    ensures |b.entries| <= b.nextSequence
  {
  }

  lemma QuietPage(w: World, start: World, page: nat, cursor: Option<nat>)
    requires Retains(start.published, start.server) && Waiting(w, start, page, cursor) && page < MAX_PAGES
    requires SliceStart(w.server, cursor) == SliceStart(start.server, start.client.cursor) + 500 * page < |w.published|
    ensures var w' := Next(Next(w, Serve(true)), Receive);
            var lo := SliceStart(start.server, start.client.cursor);
            var end := SliceStart(w.server, cursor) + 500;
            if end < |w.published| && page + 1 < MAX_PAGES
            then Waiting(w', start, page + 1, Some(end))
            else w'.client.refresh == None && w'.client.cursor == Some(Min(end, |w.published|))
                 && w'.log == start.log + start.published[lo..Min(end, |w.published|)]
  {
    hide Suffix, SliceStart, Snapshot, Next, Retains, InFlight, LastSequence;
    RetainsAtMostIssued(start.published, start.server);
    var lo := SliceStart(start.server, start.client.cursor);
    var reached := lo + 500 * page;
    PageIsPublished(w.published, w.server, cursor);
    var batch := Snapshot(w.server, cursor, 500, true);
    var w1 := Next(w, Serve(true));
    QuietServe(w);
    QuietReceive(w1, batch);
    JoinSlices(w.published, lo, reached, Min(reached + 500, |w.published|));
  }

  lemma JoinSlices(s: seq<Entry>, a: nat, b: nat, c: nat)
    requires a <= b <= c <= |s|
    ensures s[a..b] + s[b..c] == s[a..c]
  {
  }

  lemma QuietServe(w: World)
    requires Active(w.client) && w.client.refresh.value.wire.Requested?
    ensures InFlight(Next(w, Serve(true)).client) == InFlight(w.client)
    ensures var r := w.client.refresh.value;
            Next(w, Serve(true)) ==
              w.(client := w.client.(refresh := Some(r.(wire := Answered(Snapshot(w.server, r.wire.after, 500, true))))))
  {
    hide Snapshot;
  }

  lemma QuietReceive(w: World, batch: Batch)
    requires Active(w.client) && w.client.refresh.value.wire == Answered(batch)
    ensures var r := w.client.refresh.value;
            var w' := Next(w, Receive);
            && w'.server == w.server && w'.published == w.published
            && (batch.entries != [] ==> w'.client.cursor == Some(LastSequence(batch.entries)))
            && if batch.hasMore && r.page + 1 < MAX_PAGES then
              Active(w'.client) && w'.client.refresh.value.page == r.page + 1
              && w'.client.refresh.value.wire == Requested(w'.client.cursor)
              && InFlight(w'.client) == InFlight(w.client) + batch.entries && w'.log == w.log
            else w'.client.refresh == None && w'.log == w.log + (InFlight(w.client) + batch.entries)
  {
    hide Suffix;
    assert w.log + [] == w.log;
  }

  lemma MoreIffBeyond(b: Buffer, cursor: Option<nat>)
    requires Consecutive(b)
    ensures Snapshot(b, cursor, 500, true).hasMore <==> b.nextSequence - SliceStart(b, cursor) > 500
  {
  }

  lemma QuietStart(w: World)
    requires w.client.refresh == None && Consecutive(w.server) && w.server.nextSequence == |w.published|
    ensures Waiting(Next(w, Begin), w, 0, w.client.cursor)
  {
  }

  /** Before the last page, page k starts 500 k entries above where the first one does. */
  lemma {:induction false} QuietProgress(w: World, pages: nat)
    requires Retains(w.published, w.server) && w.server.entries != [] && w.client.refresh == None
    requires pages < MAX_PAGES && SliceStart(w.server, w.client.cursor) + 500 * pages < |w.published|
    ensures exists cursor :: Waiting(Quiet(w, pages), w, pages, cursor)
                             && SliceStart(w.server, cursor) == SliceStart(w.server, w.client.cursor) + 500 * pages
  {
    hide Next, SliceStart, Waiting;
    if pages == 0 {
      QuietStart(w);
    } else {
      QuietProgress(w, pages - 1);
      var cursor :| Waiting(Quiet(w, pages - 1), w, pages - 1, cursor)
                    && SliceStart(w.server, cursor) == SliceStart(w.server, w.client.cursor) + 500 * (pages - 1);
      WaitingKeepsServer(Quiet(w, pages - 1), w, pages - 1, cursor);
      QuietPage(Quiet(w, pages - 1), w, pages - 1, cursor);
      SliceStartIs(w.server, SliceStart(w.server, w.client.cursor) + 500 * pages);
      SliceStartInBuffer(w.server, w.client.cursor);
    }
  }

  lemma SliceStartInBuffer(b: Buffer, cursor: Option<nat>)
    requires Consecutive(b)
    ensures b.nextSequence - |b.entries| <= SliceStart(b, cursor) <= b.nextSequence
  {
  }

  lemma WaitingKeepsServer(w: World, start: World, page: nat, cursor: Option<nat>)
    requires |start.server.entries| <= start.server.nextSequence
    requires Waiting(w, start, page, cursor)
    ensures w.server == start.server && w.published == start.published
  {
  }

  /**
   * Four pages of 500 are exactly a full buffer: left alone, a refresh that finds something new commits
   * everything that is left to take, however far behind its cursor was.
   */
  lemma UndisturbedRefreshCatchesUp(steps: seq<Step>) returns (pages: nat)
    requires |steps| <= U64_MAX
    requires var w := Run(INITIAL, steps);
             w.client.refresh == None && w.server.entries != []
             && (w.client.cursor.Some? ==> w.client.cursor.value < |w.published|)
    ensures 1 <= pages <= 4
    ensures var w := Run(INITIAL, steps);
            var w' := Quiet(w, pages);
            && w'.client.refresh == None && w'.client.cursor == Some(|w.published|)
            && |w.server.entries| <= w.server.nextSequence && SliceStart(w.server, w.client.cursor) <= |w.published|
            && w'.log == w.log + w.published[SliceStart(w.server, w.client.cursor)..]
  {
    hide Run, Next, SliceStart, Waiting;
    RunKeepsInv(steps);
    var w := Run(INITIAL, steps);
    SliceStartInBuffer(w.server, w.client.cursor);
    SomethingNew(w);
    var left := |w.published| - SliceStart(w.server, w.client.cursor);
    pages := (left + 499) / 500;
    QuietProgress(w, pages - 1);
    var cursor :| Waiting(Quiet(w, pages - 1), w, pages - 1, cursor)
                  && SliceStart(w.server, cursor) == SliceStart(w.server, w.client.cursor) + 500 * (pages - 1);
    WaitingKeepsServer(Quiet(w, pages - 1), w, pages - 1, cursor);
    QuietPage(Quiet(w, pages - 1), w, pages - 1, cursor);
  }

  lemma SomethingNew(w: World)
    requires Retains(w.published, w.server) && w.server.entries != []
    requires w.client.cursor.Some? ==> w.client.cursor.value < |w.published|
    ensures SliceStart(w.server, w.client.cursor) < |w.published|
  {
    if w.client.cursor.Some? {
      SliceStartIs(w.server, w.client.cursor.value);
    }
  }

  /** In no run does a refresh ask for a fifth page: with the fourth taken in, it is committed. */
  lemma {:induction false} FourPagesAtMost(steps: seq<Step>)
    ensures var c := Run(INITIAL, steps).client;
            c.refresh.Some? ==>
              && c.refresh.value.page < 4
              && (c.refresh.value.page == 3 && c.refresh.value.wire.Answered? ==> Received(c).refresh == None)
    decreases |steps|
  {
    hide Apply, Record, Snapshot, Suffix;
    if steps != [] {
      FourPagesAtMost(steps[..|steps| - 1]);
    }
  }

  // ----- a dropped refresh loses what it had taken in -----

  /** The client is past `hi` and holds nothing in (lo, hi]. */
  ghost predicate Skips(w: World, lo: int, hi: int) {
    && w.client.cursor.Some? && w.client.cursor.value >= hi
    && forall i :: 0 <= i < |Taken(w)| ==> Taken(w)[i].sequence <= lo || Taken(w)[i].sequence > hi
  }

  lemma StepSkips(w: World, step: Step, lo: int, hi: int)
    requires Inv(w) && Skips(w, lo, hi)
    requires step != LocalClear
    ensures Skips(Next(w, step), lo, hi)
  {
    hide Apply, Record, Snapshot;
    var w' := Next(w, step);
    if step == Receive && Active(w.client) && w.client.refresh.value.wire.Answered? {
      ReceiveTakesPage(w);
      var page := w.client.refresh.value.wire.batch.entries;
      forall i | 0 <= i < |Taken(w')| ensures Taken(w')[i].sequence <= lo || Taken(w')[i].sequence > hi {
        if i < |Taken(w)| {
          assert Taken(w')[i] == Taken(w)[i];
        } else {
          assert Taken(w')[i] == page[i - |Taken(w)|];
        }
      }
    } else {
      assert Taken(w') <= Taken(w);
    }
  }

  lemma {:induction false} RunSkips(w: World, steps: seq<Step>, lo: int, hi: int)
    requires Inv(w) && Skips(w, lo, hi)
    requires LocalClear !in steps
    requires |w.published| + |steps| <= U64_MAX
    ensures Inv(Run(w, steps)) && Skips(Run(w, steps), lo, hi)
    ensures |Run(w, steps).published| <= |w.published| + |steps|
    decreases |steps|
  {
    hide Next, Inv, Skips;
    if steps != [] {
      var init := steps[..|steps| - 1];
      var step := steps[|steps| - 1];
      assert step in steps;
      RunSkips(w, init, lo, hi);
      StepKeepsInv(Run(w, init), step);
      StepSkips(Run(w, init), step, lo, hi);
      PublishedGrows(Run(w, init), step);
    }
  }

  /** Entries of a refresh that is dropped never reach the log, however the run goes on, until the page is cleared. */
  lemma DroppedEntriesNeverArrive(before: seq<Step>, after: seq<Step>)
    requires |before| + |after| <= U64_MAX
    requires LocalClear !in after
    ensures var w := Run(INITIAL, before);
            var log := Run(Next(w, Drop), after).log;
            forall i, j :: 0 <= i < |InFlight(w.client)| && 0 <= j < |log| ==>
              log[j].sequence != InFlight(w.client)[i].sequence
  {
    hide Run;
    var w := Run(INITIAL, before);
    var dropped := InFlight(w.client);
    RunKeepsInv(before);
    if dropped != [] {
      var w' := Next(w, Drop);
      var lo := dropped[0].sequence - 1;
      var hi := LastSequence(dropped);
      forall i | 0 <= i < |dropped| ensures lo < dropped[i].sequence <= hi {
        assert Taken(w)[|w.log| + i] == dropped[i];
        assert Taken(w)[|w.log|] == dropped[0];
        assert Taken(w)[|Taken(w)| - 1] == dropped[|dropped| - 1];
      }
      forall i | 0 <= i < |Taken(w')| ensures Taken(w')[i].sequence <= lo {
        assert Taken(w')[i] == w.log[i] == Taken(w)[i];
        assert Taken(w)[|w.log|] == dropped[0];
      }
      DropKeepsInv(w);
      RunSkips(w', after, lo, hi);
      var end := Run(w', after);
      forall j | 0 <= j < |end.log| ensures end.log[j].sequence <= lo || end.log[j].sequence > hi {
        assert end.log[j] == Taken(end)[j];
      }
    }
  }

  // ----- and it can do so without the gap being reported -----

  lemma {:induction false} RunConcat(w: World, a: seq<Step>, b: seq<Step>)
    ensures Run(w, a + b) == Run(Run(w, a), b)
    decreases |b|
  {
    hide Next;
    if b == [] {
      assert a + b == a;
    } else {
      var init := b[..|b| - 1];
      assert (a + b)[..|a + b| - 1] == a + init;
      RunConcat(w, a, init);
    }
  }

  const SAMPLE := Server(DoPublish("x", Metadata(None, None, None, None, None, None), 0))

  function Samples(k: nat): seq<Step> {
    if k == 0 then [] else Samples(k - 1) + [SAMPLE]
  }

  lemma SampleIsStored()
    ensures SanitizedMessage("x") == "x"
  {
    var text := "x";
    assert "" + text == text;
    assert text == ['x'] && text[1..] == "";
    assert Kept('x', true);
    assert Text.Utf8Len(text) == Text.CharBytes('x');
    assert IsClean(text, MAX_MESSAGE_BYTES, true);
    ScrubbedOfClean(text, MAX_MESSAGE_BYTES, true, "");
  }

  /** The server holds everything ever stored, `n` entries. */
  ghost predicate Holds(w: World, n: nat) {
    Retains(w.published, w.server) && |w.published| == n && |w.server.entries| == n
  }

  lemma {:induction false} SamplesFill(w: World, n: nat, k: nat)
    requires Holds(w, n) && n + k <= MAX_ENTRIES
    ensures var w' := Run(w, Samples(k));
            Holds(w', n + k) && w'.client == w.client && w'.log == w.log && w'.lost == w.lost
    ensures |Samples(k)| == k
  {
    hide SanitizedMessage;
    if k > 0 {
      SamplesFill(w, n, k - 1);
      SampleIsStored();
      var before := Run(w, Samples(k - 1));
      RunAppend(w, Samples(k - 1), SAMPLE);
      ApplyRetains(before.published, before.server, SAMPLE.op);
    }
  }

  /** One undisturbed page of a refresh that starts at `cursor`, when nothing has been evicted. */
  lemma PageOf(w: World, n: nat, cursor: nat)
    requires Holds(w, n) && cursor < n
    ensures var batch := Snapshot(w.server, Some(cursor), 500, true);
            && |batch.entries| == Min(500, n - cursor)
            && (batch.hasMore <==> n - cursor > 500)
            && !batch.cursorLagged
            && (forall i :: 0 <= i < |batch.entries| ==> batch.entries[i].sequence == cursor + i + 1)
  {
    SliceStartIs(w.server, cursor);
    SnapshotIsSlice(w.server, Some(cursor), true);
    assert w.server.entries[0].sequence == 1;
  }

  const ONE_PAGE := [Begin, Serve(true), Receive]

  lemma RunOnePage(w: World)
    ensures Run(w, ONE_PAGE) == Next(Next(Next(w, Begin), Serve(true)), Receive)
  {
    hide Next;
    assert Run(w, []) == w;
    RunAppend(w, [], Begin);
    RunAppend(w, [Begin], Serve(true));
    RunAppend(w, [Begin, Serve(true)], Receive);
    assert [] + [Begin] == [Begin];
    assert [Begin] + [Serve(true)] == [Begin, Serve(true)];
    assert [Begin, Serve(true)] + [Receive] == ONE_PAGE;
  }

  /** An idle client that shows everything up to its cursor, with no gap reported. */
  ghost predicate Idle(w: World, cursor: nat) {
    w.client.refresh == None && w.client.cursor == Some(cursor) && !w.client.gapDetected
  }

  /** One page, taken in and kept for the next request, or committed. */
  lemma OnePageTakes(w: World)
    requires w.client.refresh == None
    ensures var batch := Snapshot(w.server, w.client.cursor, 500, true);
            var w' := Run(w, ONE_PAGE);
            && w'.server == w.server && w'.published == w.published && w'.lost == w.lost
            && (batch.entries != [] ==> w'.client.cursor == Some(LastSequence(batch.entries)))
            && (if batch.hasMore then
                  Active(w'.client) && InFlight(w'.client) == batch.entries
                  && w'.log == w.log && w'.client.gapDetected == w.client.gapDetected
                else
                  w'.client.refresh == None && w'.log == w.log + batch.entries
                  && w'.client.gapDetected == (w.client.gapDetected || batch.cursorLagged))
  {
    hide Snapshot, Suffix;
    RunOnePage(w);
    var batch := Snapshot(w.server, w.client.cursor, 500, true);
    var w2 := Next(Next(w, Begin), Serve(true));
    assert w2.client.refresh == Some(Refresh(w.client.generation, 0, [], false, Answered(batch)));
    assert [] + batch.entries == batch.entries;
    assert w.log + [] == w.log;
  }

  lemma FirstEntryShown(w: World)
    requires Holds(w, 1) && w.client == INITIAL.client && w.log == []
    ensures var w' := Run(w, ONE_PAGE);
            Holds(w', 1) && Idle(w', 1) && |w'.log| == 1 && w'.log[0].sequence == 1
  {
    hide Run, Suffix;
    OnePageTakes(w);
    var batch := Snapshot(w.server, None, 500, true);
    assert w.server.entries[0].sequence == 1;
    assert batch.entries == w.server.entries;
    assert [] + batch.entries == batch.entries;
  }

  lemma FullPageTakenThenDropped(w: World)
    requires Holds(w, 502) && Idle(w, 1)
    ensures var w' := Next(Run(w, ONE_PAGE), Drop);
            Holds(w', 502) && Idle(w', 501) && w'.log == w.log && w'.lost
  {
    hide Run, Snapshot;
    OnePageTakes(w);
    PageOf(w, 502, 1);
  }

  lemma LastEntryShown(w: World)
    requires Holds(w, 502) && Idle(w, 501) && |w.log| == 1 && w.log[0].sequence == 1
    ensures var w' := Run(w, ONE_PAGE);
            !w'.client.gapDetected && HasJump(w'.log, 1) && w'.lost == w.lost
  {
    hide Run, Snapshot;
    OnePageTakes(w);
    PageOf(w, 502, 501);
    var log := Run(w, ONE_PAGE).log;
    assert log[1].sequence == 502 && JumpAt(log, 1);
  }

  /** Entry 1 is shown, entries 2 to 501 arrive on a page that is then dropped, entry 502 is shown: no gap is reported. */
  lemma DroppedPageLeavesSilentGap() returns (steps: seq<Step>)
    ensures |steps| < 1000
    ensures var w := Run(INITIAL, steps);
            !w.client.gapDetected && HasJump(w.log, 1) && w.lost
  {
    hide Run, Next, Samples;
    SamplesFill(INITIAL, 0, 1);
    var w1 := Run(INITIAL, Samples(1));
    FirstEntryShown(w1);
    var w2 := Run(w1, ONE_PAGE);
    SamplesFill(w2, 1, 501);
    var w3 := Run(w2, Samples(501));
    FullPageTakenThenDropped(w3);
    var w4 := Run(w3, ONE_PAGE);
    var w5 := Next(w4, Drop);
    LastEntryShown(w5);

    steps := Samples(1) + ONE_PAGE;
    RunConcat(INITIAL, Samples(1), ONE_PAGE);
    RunConcat(INITIAL, steps, Samples(501));
    steps := steps + Samples(501);
    RunConcat(INITIAL, steps, ONE_PAGE);
    steps := steps + ONE_PAGE;
    RunAppend(INITIAL, steps, Drop);
    steps := steps + [Drop];
    RunConcat(INITIAL, steps, ONE_PAGE);
    steps := steps + ONE_PAGE;
  }
}
