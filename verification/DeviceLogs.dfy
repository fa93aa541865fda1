// The bounded device-log buffer (crates/devicehub-core/src/device_logs.rs).
module DeviceLogs {
  import opened Prelude
  import opened LogText

  const MAX_BATCH_ENTRIES: nat := 500
  const MAX_ENTRIES: nat := 2000

  datatype Source = Unified | Syslog

  datatype Level = Notice | Info | Debug | Error | Fault

  datatype Metadata = Metadata(
    level: Option<Level>,
    process: Option<string>,
    pid: Option<nat>,
    subsystem: Option<string>,
    category: Option<string>,
    filename: Option<string>)

  datatype Entry = Entry(sequence: nat, receivedAtMs: nat, message: string, metadata: Metadata)

  datatype Batch = Batch(
    entries: seq<Entry>,
    oldestSequence: Option<nat>,
    latestSequence: Option<nat>,
    cursorLagged: bool,
    hasMore: bool,
    streaming: bool,
    source: Option<Source>)

  /** The contents of the mutex. */
  datatype Buffer = Buffer(entries: seq<Entry>, nextSequence: nat, source: Option<Source>)

  const EMPTY_BUFFER := Buffer([], 0, None)

  function SaturatingIncrement(n: nat): nat {
    if n < U64_MAX then n + 1 else U64_MAX
  }

  function SanitizedFields(m: Metadata): Metadata {
    m.(process := SanitizedMetadata(m.process),
       subsystem := SanitizedMetadata(m.subsystem),
       category := SanitizedMetadata(m.category),
       filename := SanitizedMetadata(m.filename))
  }

  /** The entry a non-blank publish stores. */
  function NewEntry(b: Buffer, message: string, metadata: Metadata, now: nat): Entry {
    Entry(SaturatingIncrement(b.nextSequence), now, SanitizedMessage(message), SanitizedFields(metadata))
  }

  function Publish(b: Buffer, message: string, metadata: Metadata, now: nat): Buffer {
    if SanitizedMessage(message) == "" then b
    else
      var entry := NewEntry(b, message, metadata, now);
      b.(entries := Suffix(b.entries + [entry], MAX_ENTRIES), nextSequence := entry.sequence)
  }

  function Cleared(b: Buffer): Buffer {
    b.(entries := [])
  }

  function Reset(b: Buffer): Buffer {
    b.(entries := [], source := None)
  }

  function ClampLimit(limit: nat): (r: nat)
    ensures 1 <= r <= MAX_BATCH_ENTRIES
  {
    Max(1, Min(limit, MAX_BATCH_ENTRIES))
  }

  /** Index of the first entry above `after`, or the length when there is none. */
  function FirstAbove(entries: seq<Entry>, after: nat): (i: nat)
    ensures i <= |entries|
    ensures forall j :: 0 <= j < i ==> entries[j].sequence <= after
    ensures i < |entries| ==> entries[i].sequence > after
  {
    if entries == [] || entries[0].sequence > after then 0 else 1 + FirstAbove(entries[1..], after)
  }

  function Snapshot(b: Buffer, after: Option<nat>, limit: nat, streaming: bool): Batch {
    var max := ClampLimit(limit);
    var count := |b.entries|;
    var start := match after
      case Some(a) => FirstAbove(b.entries, a)
      case None => if count <= max then 0 else count - max;
    Batch(
      Prefix(b.entries[start..], max),
      if count == 0 then None else Some(b.entries[0].sequence),
      if count == 0 then None else Some(b.entries[count - 1].sequence),
      after.Some? && count > 0 && SaturatingIncrement(after.value) < b.entries[0].sequence,
      count - start > max,
      streaming,
      b.source)
  }

  // ----- the slot as the program holds it -----

  class DeviceLogSlot {
    var entries: seq<Entry>
    var nextSequence: nat
    var source: Option<Source>

    function View(): Buffer
      reads this
    {
      Buffer(entries, nextSequence, source)
    }

    constructor ()
      ensures View() == EMPTY_BUFFER
    {
      entries, nextSequence, source := [], 0, None;
    }

    method PublishStructured(message: string, metadata: Metadata, now: nat)
      modifies this
      ensures View() == Publish(old(View()), message, metadata, now)
    {
      var text := Sanitize(message, MAX_MESSAGE_BYTES, true);
      if text == "" {
        return;
      }
      nextSequence := SaturatingIncrement(nextSequence);
      entries := entries + [Entry(nextSequence, now, text, SanitizedFields(metadata))];
      ghost var pushed := entries;
      while |entries| > MAX_ENTRIES
        invariant |entries| <= |pushed|
        invariant entries == pushed[|pushed| - |entries|..]
        invariant |entries| >= MAX_ENTRIES || entries == pushed
        invariant nextSequence == SaturatingIncrement(old(nextSequence)) && source == old(source)
      {
        entries := entries[1..];
      }
    }

    method TakeSnapshot(after: Option<nat>, limit: nat, streaming: bool) returns (batch: Batch)
      ensures batch == Snapshot(View(), after, limit, streaming)
    {
      var max := ClampLimit(limit);
      var start := if |entries| <= max then 0 else |entries| - max;
      if after.Some? {
        start := 0;
        while start < |entries| && entries[start].sequence <= after.value
          invariant start <= |entries|
          invariant forall j :: 0 <= j < start ==> entries[j].sequence <= after.value
        {
          start := start + 1;
        }
      }
      var oldest := if entries == [] then None else Some(entries[0].sequence);
      var latest := if entries == [] then None else Some(entries[|entries| - 1].sequence);
      var lagged := after.Some? && oldest.Some? && SaturatingIncrement(after.value) < oldest.value;
      batch := Batch(Prefix(entries[start..], max), oldest, latest, lagged, |entries| - start > max, streaming, source);
    }

    method SetSource(newSource: Option<Source>)
      modifies this`source
      ensures View() == old(View()).(source := newSource)
    {
      source := newSource;
    }

    method Clear()
      modifies this`entries
      ensures View() == Cleared(old(View()))
    {
      entries := [];
    }

    method ResetAll()
      modifies this`entries, this`source
      ensures View() == Reset(old(View()))
    {
      entries := [];
      source := None;
    }
  }

  // ----- runs of the buffer -----

  datatype ServerOp =
    | DoPublish(message: string, metadata: Metadata, now: nat)
    | DoClear
    | DoReset
    | DoSetSource(source: Option<Source>)

  function Apply(b: Buffer, op: ServerOp): Buffer {
    match op
    case DoPublish(message, metadata, now) => Publish(b, message, metadata, now)
    case DoClear => Cleared(b)
    case DoReset => Reset(b)
    case DoSetSource(source) => b.(source := source)
  }

  /** Everything ever stored, in order: what `op` adds to `published`. */
  function Record(published: seq<Entry>, b: Buffer, op: ServerOp): seq<Entry> {
    if op.DoPublish? && SanitizedMessage(op.message) != ""
    then published + [NewEntry(b, op.message, op.metadata, op.now)]
    else published
  }

  /** The n-th entry ever stored carries sequence n. */
  ghost predicate Numbered(published: seq<Entry>) {
    forall i :: 0 <= i < |published| ==> published[i].sequence == i + 1
  }

  /** The entry is, unaltered, the one that was stored under its number. */
  ghost predicate IsStored(published: seq<Entry>, e: Entry) {
    1 <= e.sequence <= |published| && published[e.sequence - 1] == e
  }

  ghost predicate Genuine(published: seq<Entry>, entries: seq<Entry>) {
    forall i {:trigger IsStored(published, entries[i])} :: 0 <= i < |entries| ==> IsStored(published, entries[i])
  }

  /** Retained sequences are consecutive, end at `next_sequence` and number at most 2,000. */
  ghost predicate Consecutive(b: Buffer) {
    && |b.entries| <= MAX_ENTRIES
    && |b.entries| <= b.nextSequence
    && forall i :: 0 <= i < |b.entries| ==> b.entries[i].sequence == b.nextSequence - |b.entries| + 1 + i
  }

  /** The buffer retains exactly the newest few of everything ever stored. */
  ghost predicate Retains(published: seq<Entry>, b: Buffer) {
    && Numbered(published)
    && b.nextSequence == |published| <= U64_MAX
    && Consecutive(b)
    && Genuine(published, b.entries)
  }

  lemma GenuineGrows(published: seq<Entry>, more: seq<Entry>, entries: seq<Entry>)
    requires Genuine(published, entries)
    requires published <= more
    ensures Genuine(more, entries)
  {
    forall i | 0 <= i < |entries| ensures IsStored(more, entries[i]) {
      assert IsStored(published, entries[i]);
    }
  }

  lemma PublishRetains(published: seq<Entry>, b: Buffer, entry: Entry)
    requires Retains(published, b)
    requires |published| < U64_MAX && entry.sequence == |published| + 1
    ensures Retains(published + [entry], b.(entries := Suffix(b.entries + [entry], MAX_ENTRIES), nextSequence := entry.sequence))
  {
    var more := published + [entry];
    var longer := b.entries + [entry];
    var kept := Suffix(longer, MAX_ENTRIES);
    GenuineGrows(published, more, b.entries);
    forall i | 0 <= i < |kept| ensures IsStored(more, kept[i]) {
      if i < |kept| - 1 {
        assert kept[i] == b.entries[|longer| - |kept| + i];
        assert IsStored(more, b.entries[|longer| - |kept| + i]);
      }
    }
  }

  lemma ApplyRetains(published: seq<Entry>, b: Buffer, op: ServerOp)
    requires Retains(published, b)
    requires |published| < U64_MAX
    ensures Retains(Record(published, b, op), Apply(b, op))
    ensures published <= Record(published, b, op)
  {
    hide SanitizedMessage;
    if op.DoPublish? && SanitizedMessage(op.message) != "" {
      PublishRetains(published, b, NewEntry(b, op.message, op.metadata, op.now));
    }
  }

  function ServerRun(b: Buffer, ops: seq<ServerOp>): Buffer
    decreases |ops|
  {
    if ops == [] then b else Apply(ServerRun(b, ops[..|ops| - 1]), ops[|ops| - 1])
  }

  function PublishedBy(ops: seq<ServerOp>): seq<Entry>
    decreases |ops|
  {
    if ops == [] then []
    else
      var before := ops[..|ops| - 1];
      Record(PublishedBy(before), ServerRun(EMPTY_BUFFER, before), ops[|ops| - 1])
  }

  /** After any run the buffer holds consecutive sequences ending at the newest one, unaltered and at most 2,000. */
  lemma {:induction false} RunRetains(ops: seq<ServerOp>)
    requires |ops| <= U64_MAX
    ensures |PublishedBy(ops)| <= |ops|
    ensures Retains(PublishedBy(ops), ServerRun(EMPTY_BUFFER, ops))
    ensures var b := ServerRun(EMPTY_BUFFER, ops);
            b.entries == Suffix(PublishedBy(ops), |b.entries|)
    decreases |ops|
  {
    if ops != [] {
      var before := ops[..|ops| - 1];
      RunRetains(before);
      ApplyRetains(PublishedBy(before), ServerRun(EMPTY_BUFFER, before), ops[|ops| - 1]);
    }
    RetainsNewest(PublishedBy(ops), ServerRun(EMPTY_BUFFER, ops));
  }

  lemma RetainsNewest(published: seq<Entry>, b: Buffer)
    requires Retains(published, b)
    ensures b.entries == Suffix(published, |b.entries|)
  {
    var newest := Suffix(published, |b.entries|);
    forall i | 0 <= i < |b.entries| ensures b.entries[i] == newest[i] {
      assert IsStored(published, b.entries[i]);
    }
  }

  /** Saturation is the only thing that breaks the numbering: a publish keeps it iff there is a number left to give. */
  lemma PublishKeepsNumbering(b: Buffer, message: string, metadata: Metadata, now: nat)
    requires Consecutive(b) && b.nextSequence <= U64_MAX
    ensures Consecutive(Publish(b, message, metadata, now))
       <==> (SanitizedMessage(message) == "" || b.nextSequence < U64_MAX || b.entries == [])
  {
    var after := Publish(b, message, metadata, now);
    if SanitizedMessage(message) != "" && b.nextSequence == U64_MAX && b.entries != [] {
      var all := b.entries + [NewEntry(b, message, metadata, now)];
      assert after.entries[|after.entries| - 1] == all[|all| - 1];
      assert after.entries[|after.entries| - 2] == all[|all| - 2];
    }
  }

  // ----- what one snapshot returns -----

  /** Entries above the cursor, by filtering: the reference reading of a page. */
  function Above(entries: seq<Entry>, after: nat): seq<Entry> {
    if entries == [] then []
    else (if entries[0].sequence > after then [entries[0]] else []) + Above(entries[1..], after)
  }

  lemma {:induction false} AboveIsSuffix(entries: seq<Entry>, after: nat)
    requires forall i, j :: 0 <= i < j < |entries| ==> entries[i].sequence < entries[j].sequence
    ensures Above(entries, after) == entries[FirstAbove(entries, after)..]
  {
    if entries != [] {
      AboveIsSuffix(entries[1..], after);
      if entries[0].sequence > after && |entries| > 1 {
        assert FirstAbove(entries[1..], after) == 0 by {
          assert entries[1..][0].sequence > after;
        }
      }
    }
  }

  /** `sequence` was handed out and is no longer in the buffer. */
  ghost predicate IssuedAndLost(b: Buffer, sequence: nat) {
    1 <= sequence <= b.nextSequence && forall e :: e in b.entries ==> e.sequence != sequence
  }

  /** A page is the first `limit` retained entries above the cursor, and says exactly whether more remain. */
  lemma SnapshotIsPage(b: Buffer, after: nat, limit: nat, streaming: bool)
    requires Consecutive(b)
    ensures var batch := Snapshot(b, Some(after), limit, streaming);
            && batch.entries == Prefix(Above(b.entries, after), ClampLimit(limit))
            && (batch.hasMore <==> |Above(b.entries, after)| > ClampLimit(limit))
  {
    hide Above, ClampLimit;
    AboveIsSuffix(b.entries, after);
  }

  /** On a non-empty buffer the lag flag says exactly whether a sequence between the cursor and the oldest entry was lost. */
  lemma LagFlagIsExact(b: Buffer, after: nat, limit: nat, streaming: bool)
    requires Consecutive(b) && b.nextSequence <= U64_MAX
    ensures b.entries != [] ==>
              (Snapshot(b, Some(after), limit, streaming).cursorLagged
               <==> exists s: nat :: after < s < b.entries[0].sequence && IssuedAndLost(b, s))
    ensures b.entries == [] ==> !Snapshot(b, Some(after), limit, streaming).cursorLagged
  {
    hide FirstAbove, ClampLimit, Prefix;
    if b.entries != [] && after + 1 < b.entries[0].sequence {
      assert IssuedAndLost(b, after + 1);
    }
  }

  /** The reported bounds are the lowest and highest retained sequence; the rest is passed on. */
  lemma SnapshotBounds(b: Buffer, after: Option<nat>, limit: nat, streaming: bool)
    requires Consecutive(b)
    ensures var batch := Snapshot(b, after, limit, streaming);
            && batch.oldestSequence == (if b.entries == [] then None else Some(b.nextSequence - |b.entries| + 1))
            && batch.latestSequence == (if b.entries == [] then None else Some(b.nextSequence))
            && batch.streaming == streaming && batch.source == b.source
  {
    hide FirstAbove, ClampLimit, Prefix;
  }

  /** Without a cursor the newest `limit` entries are returned, never flagged as lagging or as having more. */
  lemma SnapshotIsTail(b: Buffer, limit: nat, streaming: bool)
    ensures var batch := Snapshot(b, None, limit, streaming);
            && batch.entries == Suffix(b.entries, ClampLimit(limit))
            && !batch.cursorLagged && !batch.hasMore
            && (batch.entries == [] ==> batch.latestSequence == None)
  {
  }

  /** A value that the sanitiser has nothing to change in. */
  ghost predicate IsCleanField(value: Option<string>) {
    value.Some? ==> value.value != "" && IsClean(value.value, MAX_METADATA_BYTES, false) && IsTrimmed(value.value)
  }

  lemma FieldIsClean(value: Option<string>)
    ensures IsCleanField(SanitizedMetadata(value))
    ensures IsCleanField(value) ==> SanitizedMetadata(value) == value
  {
    hide Sanitized;
    MetadataIsIdempotent(value);
    if value.Some? {
      SanitizedIsCanonical(value.value, MAX_METADATA_BYTES, false);
    }
  }

  /**
   * Every stored field is clean, and one that was clean already is stored in its own place, whatever the
   * others are; level and process id are stored as given.
   */
  lemma FieldsAreStoredInPlace(m: Metadata)
    ensures var stored := SanitizedFields(m);
            && stored.level == m.level && stored.pid == m.pid
            && IsCleanField(stored.process) && (IsCleanField(m.process) ==> stored.process == m.process)
            && IsCleanField(stored.subsystem) && (IsCleanField(m.subsystem) ==> stored.subsystem == m.subsystem)
            && IsCleanField(stored.category) && (IsCleanField(m.category) ==> stored.category == m.category)
            && IsCleanField(stored.filename) && (IsCleanField(m.filename) ==> stored.filename == m.filename)
            && SanitizedFields(stored) == stored
  {
    hide SanitizedMetadata, IsCleanField;
    FieldIsStable(m.process);
    FieldIsStable(m.subsystem);
    FieldIsStable(m.category);
    FieldIsStable(m.filename);
  }

  lemma FieldIsStable(value: Option<string>)
    ensures IsCleanField(SanitizedMetadata(value))
    ensures IsCleanField(value) ==> SanitizedMetadata(value) == value
    ensures SanitizedMetadata(SanitizedMetadata(value)) == SanitizedMetadata(value)
  {
    hide SanitizedMetadata, IsCleanField;
    FieldIsClean(value);
    FieldIsClean(SanitizedMetadata(value));
  }

  /** Nothing but white space and control characters. */
  ghost predicate IsBlankText(text: string, limit: nat, keepTab: bool) {
    forall i :: 0 <= i < TakenCount(text, limit, keepTab, "") ==> IsBlank(text[i])
  }

  /** A field is stored word for word, and dropped exactly when it is absent or blank. */
  ghost predicate IsFieldOf(stored: Option<string>, given: Option<string>) {
    && (stored.None? <==> given.None? || IsBlankText(given.value, 512, false))
    && (stored.Some? ==> IsTextOf(stored.value, given.value, 512, false))
  }

  lemma FieldKeepsWords(value: Option<string>)
    ensures IsFieldOf(SanitizedMetadata(value), value)
  {
    hide Sanitized, IsTextOf, TakenCount;
    if value.Some? {
      SanitizedIsEmptyIff(value.value, 512, false);
      SanitizedKeepsWords(value.value, 512, false);
    }
  }

  lemma FieldsKeepWords(m: Metadata)
    ensures var stored := SanitizedFields(m);
            && IsFieldOf(stored.process, m.process) && IsFieldOf(stored.subsystem, m.subsystem)
            && IsFieldOf(stored.category, m.category) && IsFieldOf(stored.filename, m.filename)
  {
    hide SanitizedMetadata, IsFieldOf;
    FieldKeepsWords(m.process);
    FieldKeepsWords(m.subsystem);
    FieldKeepsWords(m.category);
    FieldKeepsWords(m.filename);
  }

  /** What an entry holds of what was published. */
  ghost predicate IsEntryOf(e: Entry, message: string, metadata: Metadata, now: nat) {
    && e.receivedAtMs == now
    && e.message != "" && IsClean(e.message, 16384, true) && IsTrimmed(e.message)
    && (IsClean(message, 16384, true) && IsTrimmed(message) ==> e.message == message)
    && IsTextOf(e.message, message, 16384, true)
    && e.metadata.level == metadata.level && e.metadata.pid == metadata.pid
    && IsFieldOf(e.metadata.process, metadata.process) && IsFieldOf(e.metadata.subsystem, metadata.subsystem)
    && IsFieldOf(e.metadata.category, metadata.category) && IsFieldOf(e.metadata.filename, metadata.filename)
  }

  /**
   * A blank message is dropped. Any other is stored behind the entries before it, of which the newest 1,999 stay,
   * under the next number: bounded, trimmed, free of control characters, and word for word.
   */
  lemma PublishStores(b: Buffer, message: string, metadata: Metadata, now: nat)
    ensures var after := Publish(b, message, metadata, now);
            if IsBlankText(message, 16384, true) then after == b
            else
              && after.entries != []
              && var e := after.entries[|after.entries| - 1];
                 && IsEntryOf(e, message, metadata, now)
                 && after.source == b.source
                 && e.sequence == after.nextSequence == (if b.nextSequence < U64_MAX then b.nextSequence + 1 else U64_MAX)
                 && after.entries == Suffix(b.entries, 1999) + [e]
  {
    hide SanitizedFields, Sanitized, IsTextOf, TakenCount, IsClean, IsTrimmed, IsFieldOf;
    SanitizedIsEmptyIff(message, 16384, true);
    SanitizedIsCanonical(message, 16384, true);
    SanitizedKeepsWords(message, 16384, true);
    FieldsKeepWords(metadata);
    LevelAndPidAreKept(metadata);
    if IsClean(message, 16384, true) && IsTrimmed(message) {
      CleanIsKept(message, 16384, true);
    }
  }

  lemma LevelAndPidAreKept(m: Metadata)
    ensures SanitizedFields(m).level == m.level && SanitizedFields(m).pid == m.pid
  {
  }

  // ----- how much is retained -----

  /** How many entries have been stored since the buffer was last emptied. */
  function SinceEmptied(ops: seq<ServerOp>): nat
    decreases |ops|
  {
    if ops == [] then 0
    else
      var before := SinceEmptied(ops[..|ops| - 1]);
      match ops[|ops| - 1]
      case DoPublish(message, _, _) => if SanitizedMessage(message) == "" then before else before + 1
      case DoClear => 0
      case DoReset => 0
      case DoSetSource(_) => before
  }

  /** Nothing is evicted early: after any run the buffer holds all that was stored since it was emptied, or the newest 2,000. */
  lemma {:induction false} RunRetainsEnough(ops: seq<ServerOp>)
    ensures |ServerRun(EMPTY_BUFFER, ops).entries| == Min(2000, SinceEmptied(ops))
    decreases |ops|
  {
    hide SanitizedMessage, NewEntry;
    if ops != [] {
      RunRetainsEnough(ops[..|ops| - 1]);
    }
  }

  /** Clearing and resetting leave nothing to read, and the numbering goes on where it was. */
  lemma EmptyingForgets(b: Buffer, after: Option<nat>, limit: nat, streaming: bool)
    ensures Snapshot(Cleared(b), after, limit, streaming) == Batch([], None, None, false, false, streaming, b.source)
    ensures Snapshot(Reset(b), after, limit, streaming) == Batch([], None, None, false, false, streaming, None)
    ensures Cleared(b).nextSequence == Reset(b).nextSequence == b.nextSequence
  {
  }

  /** The limit asked for counts from 1 to 500; anything else gives the nearer end. */
  lemma LimitsOfPages(limit: nat)
    ensures limit == 0 ==> ClampLimit(limit) == 1
    ensures 1 <= limit <= 500 ==> ClampLimit(limit) == limit
    ensures limit > 500 ==> ClampLimit(limit) == 500
  {
  }
}
