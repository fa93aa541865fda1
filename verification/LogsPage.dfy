// The page component as the program runs it: refs and state updated by `refresh` and `clear`
// (src/components/DeviceLogsPage.tsx:94-135, 154-165), tied step by step to LogDelivery.
module LogsPage {
  import opened Prelude
  import opened DeviceLogs
  import opened LogDelivery

  /** Where the cursor stands after a page. */
  function CursorAfter(cursor: Option<nat>, batch: Batch): Option<nat> {
    if batch.entries != [] then Some(batch.entries[|batch.entries| - 1].sequence)
    else if cursor == None then batch.latestSequence
    else cursor
  }

  /** An answer to a request sent before a clear is ignored, and ends the refresh. */
  lemma StaleIsIgnored(w: World, r: Refresh)
    requires w.client.refresh == Some(r) && r.generation != w.client.generation && r.wire.Answered?
    ensures Next(w, Receive) == w.(client := w.client.(refresh := None))
  {
    assert w.log + [] == w.log;
  }

  /** A page taken in: on to the next request, or committed. */
  lemma PageTakenIn(w: World, r: Refresh, batch: Batch)
    requires w.client.refresh == Some(r) && r.generation == w.client.generation
    requires r.wire == Answered(batch)
    ensures var cursor := CursorAfter(w.client.cursor, batch);
            var more := Refresh(r.generation, r.page + 1, r.received + batch.entries,
                                r.lagged || batch.cursorLagged, Requested(cursor));
            Next(w, Receive) ==
              if batch.hasMore && r.page + 1 < MAX_PAGES then
                w.(client := w.client.(cursor := cursor, refresh := Some(more)))
              else
                Commit(w.(client := w.client.(cursor := cursor, refresh := None)), more.received, more.lagged)
  {
    assert Active(w.client);
    assert w.log + [] == w.log;
  }

  /** `w` once `received` and `lagged` have been committed. */
  function Commit(w: World, received: seq<Entry>, lagged: bool): World {
    w.(client := w.client.(
         gapDetected := w.client.gapDetected || lagged,
         entries := if received == [] then w.client.entries else Suffix(w.client.entries + received, CLIENT_ENTRY_LIMIT)),
       log := w.log + received)
  }

  /** What can happen while the page waits for an answer: others use the slot, or a clear gets through. */
  datatype Happening = Used(op: ServerOp) | ClearedLocally

  function StepOf(h: Happening): Step {
    match h
    case Used(op) => Server(op)
    case ClearedLocally => LocalClear
  }

  function Steps(happenings: seq<Happening>): seq<Step> {
    if happenings == [] then []
    else Steps(happenings[..|happenings| - 1]) + [StepOf(happenings[|happenings| - 1])]
  }

  /** A refresh of `pages` pages: before page k is answered, `meanwhile[k]` happens. */
  function RefreshRun(w: World, meanwhile: seq<seq<Happening>>, pages: nat, streaming: bool): World
    requires pages <= |meanwhile|
  {
    if pages == 0 then Next(w, Begin)
    else
      var reached := RefreshRun(w, meanwhile, pages - 1, streaming);
      Next(Next(Run(reached, Steps(meanwhile[pages - 1])), Serve(streaming)), Receive)
  }

  /** Such a refresh is a run of the state machine, without a dropped page. */
  lemma {:induction false} RefreshIsRun(w: World, meanwhile: seq<seq<Happening>>, pages: nat, streaming: bool)
    returns (steps: seq<Step>)
    requires pages <= |meanwhile|
    ensures RefreshRun(w, meanwhile, pages, streaming) == Run(w, steps)
    ensures Drop !in steps
  {
    hide Next;
    if pages == 0 {
      steps := [Begin];
      assert [] + [Begin] == [Begin];
      RunAppend(w, [], Begin);
    } else {
      var before := RefreshIsRun(w, meanwhile, pages - 1, streaming);
      steps := PageIsRun(w, before, Steps(meanwhile[pages - 1]), streaming);
      StepsDropNothing(meanwhile[pages - 1]);
    }
  }

  lemma PageIsRun(w: World, before: seq<Step>, ops: seq<Step>, streaming: bool) returns (steps: seq<Step>)
    ensures Run(w, steps) == Next(Next(Run(Run(w, before), ops), Serve(streaming)), Receive)
    ensures Drop !in before && Drop !in ops ==> Drop !in steps
  {
    hide Run, Next;
    RunConcat(w, before, ops);
    RunAppend(w, before + ops, Serve(streaming));
    RunAppend(w, before + ops + [Serve(streaming)], Receive);
    steps := before + ops + [Serve(streaming)] + [Receive];
  }

  lemma {:induction false} StepsDropNothing(happenings: seq<Happening>)
    ensures Drop !in Steps(happenings)
  {
    if happenings != [] {
      StepsDropNothing(happenings[..|happenings| - 1]);
    }
  }

  class DeviceLogsPage {
    const slot: DeviceLogSlot
    var cursor: Option<nat>
    var entries: seq<Entry>
    var gapDetected: bool
    var generation: nat
    // history
    ghost var published: seq<Entry>
    ghost var log: seq<Entry>
    ghost var lost: bool

    constructor (slot: DeviceLogSlot)
      requires slot.View() == EMPTY_BUFFER
      ensures this.slot == slot
      ensures View(None) == INITIAL
    {
      this.slot := slot;
      cursor, entries, gapDetected, generation := None, [], false, 0;
      published, log, lost := [], [], false;
    }

    ghost function View(refresh: Option<Refresh>): World
      reads this, slot
    {
      World(slot.View(), Client(cursor, entries, gapDetected, generation, refresh), published, log, lost)
    }

    /** The local half of a clear. */
    method ClearLocally(ghost refresh: Option<Refresh>)
      modifies this`cursor, this`entries, this`gapDetected, this`generation, this`log, this`lost
      ensures View(refresh) == Next(old(View(refresh)), LocalClear)
    {
      generation := generation + 1;
      entries := [];
      gapDetected := false;
      cursor := None;
      log, lost := [], false;
    }

    /** What happens between a request and its answer. */
    method Interfere(happenings: seq<Happening>, ghost refresh: Option<Refresh>)
      modifies this, slot
      ensures View(refresh) == Run(old(View(refresh)), Steps(happenings))
    {
      hide Next;
      ghost var start := View(refresh);
      for i := 0 to |happenings|
        invariant View(refresh) == Run(start, Steps(happenings[..i]))
      {
        assert happenings[..i + 1][..i] == happenings[..i];
        RunAppend(start, Steps(happenings[..i]), StepOf(happenings[i]));
        match happenings[i] {
          case Used(op) => Use(op, refresh);
          case ClearedLocally => ClearLocally(refresh);
        }
      }
      assert happenings[..|happenings|] == happenings;
    }

    /** Another user of the slot acts. */
    method Use(op: ServerOp, ghost refresh: Option<Refresh>)
      modifies this`published, slot
      ensures View(refresh) == Next(old(View(refresh)), Server(op))
    {
      published := Record(published, slot.View(), op);
      match op {
        case DoPublish(message, metadata, now) => slot.PublishStructured(message, metadata, now);
        case DoClear => slot.Clear();
        case DoReset => slot.ResetAll();
        case DoSetSource(source) => slot.SetSource(source);
      }
    }

    /** `await request(path)`: the answer to the cursor it was sent with is computed after whatever happened meanwhile. */
    method Request(meanwhile: seq<Happening>, streaming: bool, ghost waiting: Refresh) returns (next: Batch)
      requires waiting.wire == Requested(cursor)
      modifies this, slot
      ensures View(Some(waiting.(wire := Answered(next))))
           == Next(Run(old(View(Some(waiting))), Steps(meanwhile)), Serve(streaming))
    {
      hide Run, Steps;
      var after := cursor;
      Interfere(meanwhile, Some(waiting));
      next := slot.TakeSnapshot(after, 500, streaming);
    }

    /**
     * Taking in one answered page: the refs advance at once, `received` is only committed later. An answer
     * whose generation is over is ignored.
     */
    method TakePage(next: Batch, mine: nat, page: nat, received: seq<Entry>, lagged: bool)
      returns (stale: bool, received': seq<Entry>, lagged': bool)
      modifies this`cursor
      ensures stale <==> mine != generation
      ensures Next(old(View(Some(Refresh(mine, page, received, lagged, Answered(next))))), Receive)
           == if stale then View(None)
              else if next.hasMore && page + 1 < MAX_PAGES
              then View(Some(Refresh(mine, page + 1, received', lagged', Requested(cursor))))
              else Commit(View(None), received', lagged')
    {
      ghost var answered := Refresh(mine, page, received, lagged, Answered(next));
      received', lagged' := received, lagged;
      stale := mine != generation;
      if stale {
        StaleIsIgnored(View(Some(answered)), answered);
        return;
      }
      PageTakenIn(View(Some(answered)), answered, next);
      lagged' := lagged || next.cursorLagged;
      if next.entries != [] {
        cursor := Some(next.entries[|next.entries| - 1].sequence);
      } else if cursor == None {
        cursor := next.latestSequence;
      }
      received' := received + next.entries;
    }

    /** The state updates at the end of a refresh. */
    method Settle(received: seq<Entry>, lagged: bool)
      modifies this`entries, this`gapDetected, this`log
      ensures View(None) == Commit(old(View(None)), received, lagged)
    {
      gapDetected := gapDetected || lagged;
      if received != [] {
        entries := Suffix(entries + received, CLIENT_ENTRY_LIMIT);
      }
      log := log + received;
    }

    /** The request throws, or the effect is disposed before the answer: what was received is gone, the cursor stays. */
    method Abandon(ghost waiting: Refresh)
      modifies this`lost
      ensures View(None) == Next(old(View(Some(waiting))), Drop)
    {
      lost := lost || (waiting.generation == generation && waiting.received != []);
    }

    /**
     * A refresh, with arbitrary activity before each answer, clears of this page included; the request for page
     * `failing` throws or is disposed, if there is one. It is a run of the state machine, ending in `Drop` if
     * it fails: every theorem about runs applies to it.
     */
    method RefreshPages(meanwhile: seq<seq<Happening>>, streaming: bool, failing: nat) returns (ok: bool, ghost pages: nat)
      requires |meanwhile| == MAX_PAGES
      modifies this, slot
      ensures ok ==> 1 <= pages <= MAX_PAGES && pages <= failing
      ensures !ok ==> pages == failing < MAX_PAGES
      ensures View(None) == var reached := RefreshRun(old(View(None)), meanwhile, pages, streaming);
                            if ok then reached else Next(Run(reached, Steps(meanwhile[pages])), Drop)
    {
      hide Apply, Record, Snapshot, Received, Run, Steps, Commit, Suffix;
      ghost var start := View(None);
      var mine := generation;
      var received, lagged, page, more := [], false, 0, true;
      ghost var w := Next(start, Begin);
      while page < MAX_PAGES && more
        invariant page <= MAX_PAGES && page <= failing && (page == 0 ==> more)
        invariant w == RefreshRun(start, meanwhile, page, streaming)
        invariant w == if more && page < MAX_PAGES
                       then View(Some(Refresh(mine, page, received, lagged, Requested(cursor))))
                       else Commit(View(None), received, lagged)
        decreases MAX_PAGES - page
      {
        ghost var waiting := Refresh(mine, page, received, lagged, Requested(cursor));
        if page == failing {
          Interfere(meanwhile[page], Some(waiting));
          Abandon(waiting);
          return false, page;
        }
        var next := Request(meanwhile[page], streaming, waiting);
        w := Next(View(Some(waiting.(wire := Answered(next)))), Receive);
        var stale: bool;
        stale, received, lagged := TakePage(next, mine, page, received, lagged);
        page := page + 1;
        if stale {
          return true, page;
        }
        more := next.hasMore;
      }
      pages := page;
      ok := true;
      Settle(received, lagged);
    }

    /**
     * Clearing the server and then the page, with a refresh possibly in flight and anything happening between
     * the two; a failed DELETE leaves the page alone, whether or not it reached the server.
     */
    method Clear(reached: bool, failed: bool, between: seq<Happening>, ghost refresh: Option<Refresh>)
      modifies this, slot
      ensures View(refresh) ==
                var cleared := if reached then Next(old(View(refresh)), Server(DoClear)) else old(View(refresh));
                var waited := Run(cleared, Steps(between));
                if failed then waited else Next(waited, LocalClear)
    {
      hide Run, Steps;
      if reached {
        Use(DoClear, refresh);
      }
      Interfere(between, refresh);
      if !failed {
        ClearLocally(refresh);
      }
    }
  }
}
