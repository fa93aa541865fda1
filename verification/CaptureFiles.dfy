// Capture files written beside their destination and moved over it (crates/devicehub-host/src/capture_files.rs:40-108, 158-204).
module CaptureFiles {
  import opened Prelude

  type Bytes = seq<bv8>

  datatype Node = File(content: Bytes) | Directory

  type Files = map<string, Node>

  function Lookup(files: Files, path: string): Option<Node> {
    if path in files then Some(files[path]) else None
  }

  /** `bytes_written.saturating_add(n)` on a u64. */
  function SaturatingAdd(count: nat, n: nat): nat {
    Min(count + n, U64_MAX)
  }

  /**
   * A file system whose operations may fail. `history` lists every state it has been in, oldest
   * first: a crash leaves it in one of them. A failed rename, creation or removal changes nothing.
   */
  class Disk {
    var files: Files
    ghost var history: seq<Files>

    ghost predicate Valid()
      reads this
    {
      history != [] && history[|history| - 1] == files
    }

    constructor (files: Files)
      ensures this.files == files && Valid()
    {
      this.files := files;
      history := [files];
    }

    method CreateNew(path: string, fails: bool) returns (ok: bool)
      requires Valid()
      modifies this
      ensures Valid()
      ensures ok <==> !fails && path !in old(files)
      ensures if ok then files == old(files)[path := File([])] && history == old(history) + [files]
              else files == old(files) && history == old(history)
    {
      ok := !fails && path !in files;
      if ok {
        files := files[path := File([])];
        history := history + [files];
      }
    }

    /** `torn` is None for a write that succeeds, or says after how many bytes it fails. */
    method Append(path: string, bytes: Bytes, torn: Option<nat>) returns (ok: bool)
      requires Valid()
      requires path in files && files[path].File?
      modifies this
      ensures Valid()
      ensures ok <==> torn.None?
      ensures files == old(files)[path := File(old(files)[path].content + (if ok then bytes else Prefix(bytes, torn.value)))]
      ensures history == old(history) + [files]
    {
      ok := torn.None?;
      files := files[path := File(files[path].content + (if ok then bytes else Prefix(bytes, torn.value)))];
      history := history + [files];
    }

    method Rename(source: string, target: string, fails: bool) returns (ok: bool)
      requires Valid()
      modifies this
      ensures Valid()
      ensures ok <==> !fails && source in old(files) && old(files)[source].File? && Lookup(old(files), target) != Some(Directory)
      ensures if ok then files == (old(files) - {source})[target := old(files)[source]] && history == old(history) + [files]
              else files == old(files) && history == old(history)
    {
      ok := !fails && source in files && files[source].File? && !(target in files && files[target].Directory?);
      if ok {
        files := (files - {source})[target := files[source]];
        history := history + [files];
      }
    }

    method Remove(path: string, fails: bool)
      requires Valid()
      modifies this
      ensures Valid()
      ensures files == if fails then old(files) else old(files) - {path}
      ensures history == old(history) + [files]
    {
      if !fails {
        files := files - {path};
      }
      history := history + [files];
    }
  }

  /** Which steps of a `finish` fail. */
  datatype Faults = Faults(flush: bool, sync: bool, inspect: bool, preserve: bool, publish: bool, rollBack: bool, discard: bool, cleanUp: bool)

  /** The paths one replacement uses: the backup's name is a fresh random one. */
  datatype Paths = Paths(temporary: string, destination: string, backup: string)

  ghost predicate Apart(p: Paths) {
    p.temporary != p.destination && p.temporary != p.backup && p.destination != p.backup
  }

  /**
   * A state in which nothing has been lost: the old content is at the destination or the backup, or `content`,
   * what the temporary file held, is in place.
   */
  ghost predicate NothingLost(state: Files, p: Paths, before: Option<Node>, content: Bytes) {
    || Lookup(state, p.destination) == before
    || Lookup(state, p.destination) == Some(File(content))
    || (Lookup(state, p.destination) == None && Lookup(state, p.backup) == before)
  }

  /** All other files are as they were. */
  ghost predicate OthersKept(state: Files, start: Files, p: Paths) {
    forall path :: path != p.temporary && path != p.destination && path != p.backup ==> Lookup(state, path) == Lookup(start, path)
  }

  ghost predicate AllSafe(states: seq<Files>, start: Files, p: Paths, content: Bytes) {
    forall i :: 0 <= i < |states| ==>
      NothingLost(states[i], p, Lookup(start, p.destination), content) && OthersKept(states[i], start, p)
  }

  /** Once the temporary file's content is in place it stays in place. */
  ghost predicate StaysPublished(states: seq<Files>, start: Files, p: Paths, content: Bytes) {
    Lookup(start, p.destination) != Some(File(content)) ==>
      forall i, j :: 0 <= i < j < |states| && Lookup(states[i], p.destination) == Some(File(content)) ==>
        Lookup(states[j], p.destination) == Some(File(content))
  }

  function Moved(files: Files, source: string, target: string): Files
    requires source in files
  {
    (files - {source})[target := files[source]]
  }

  /** The states that one replacement goes through, oldest first. */
  function ReplaceStates(files: Files, p: Paths, f: Faults): seq<Files>
    requires Apart(p) && p.temporary in files
  {
    if f.inspect || Lookup(files, p.destination) == Some(Directory) then []
    else if p.destination !in files then
      if f.publish then [] else [Moved(files, p.temporary, p.destination)]
    else if f.preserve then []
    else
      var kept := Moved(files, p.destination, p.backup);
      if f.publish then
        [kept] + if f.rollBack then [] else [Moved(kept, p.backup, p.destination)]
      else
        var published := Moved(kept, p.temporary, p.destination);
        [kept, published, if f.discard then published else published - {p.backup}]
  }

  function Final(states: seq<Files>, files: Files): Files {
    if states == [] then files else states[|states| - 1]
  }

  /** Which faults a replacement survives. */
  predicate CanReplace(files: Files, p: Paths, f: Faults) {
    !f.inspect && !f.publish && Lookup(files, p.destination) != Some(Directory) && (p.destination in files ==> !f.preserve)
  }

  /** In every state of a replacement the old content is still there or the temporary file's is in place for good. */
  lemma ReplacementLosesNothing(files: Files, p: Paths, f: Faults, content: Bytes)
    requires Apart(p) && p.backup !in files && Lookup(files, p.temporary) == Some(File(content))
    ensures var states := ReplaceStates(files, p, f);
            AllSafe(states, files, p, content) && StaysPublished(states, files, p, content)
  {
    var states := ReplaceStates(files, p, f);
    var before := Lookup(files, p.destination);
    forall i | 0 <= i < |states|
      ensures NothingLost(states[i], p, before, content) && OthersKept(states[i], files, p)
    {
      assert i <= 2;
    }
  }

  /** After a replacement: what is at the destination, the backup and the temporary path, success or not. */
  lemma ReplacementEnds(files: Files, p: Paths, f: Faults, content: Bytes)
    requires Apart(p) && p.backup !in files && Lookup(files, p.temporary) == Some(File(content))
    ensures var end := Final(ReplaceStates(files, p, f), files);
            var before := Lookup(files, p.destination);
            if CanReplace(files, p, f) then
              && Lookup(end, p.destination) == Some(File(content)) && p.temporary !in end
              && Lookup(end, p.backup) == (if before.Some? && f.discard then before else None)
            else
              && Lookup(end, p.temporary) == Some(File(content))
              && (Lookup(end, p.destination), Lookup(end, p.backup)) in {(before, None), (None, before)}
              && (!f.rollBack ==> Lookup(end, p.destination) == before)
  {
  }

  /** `replace_local_file`. */
  method ReplaceLocalFile(disk: Disk, p: Paths, f: Faults, ghost content: Bytes) returns (ok: bool, ghost states: seq<Files>)
    requires disk.Valid() && Apart(p) && p.backup !in disk.files
    requires Lookup(disk.files, p.temporary) == Some(File(content))
    modifies disk
    ensures disk.Valid()
    ensures states == ReplaceStates(old(disk.files), p, f)
    ensures disk.history == old(disk.history) + states && disk.files == Final(states, old(disk.files))
    ensures ok <==> CanReplace(old(disk.files), p, f)
  {
    states := [];
    if f.inspect || (p.destination in disk.files && disk.files[p.destination].Directory?) {
      return false, states;
    }
    var hadDestination := p.destination in disk.files;
    if hadDestination {
      var preserved := disk.Rename(p.destination, p.backup, f.preserve);
      if !preserved {
        return false, states;
      }
      states := [disk.files];
    }
    ok := disk.Rename(p.temporary, p.destination, f.publish);
    if ok {
      states := states + [disk.files];
      if hadDestination {
        disk.Remove(p.backup, f.discard);
        states := states + [disk.files];
      }
    } else if hadDestination {
      var restored := disk.Rename(p.backup, p.destination, f.rollBack);
      if restored {
        states := states + [disk.files];
      }
    }
  }

  // ----- what a sequence of writes leaves behind -----

  /** One call of `write`: `torn` says after how many bytes it fails, if it does. */
  datatype Attempt = Attempt(bytes: Bytes, torn: Option<nat>)

  function LandedOf(a: Attempt): Bytes {
    if a.torn.None? then a.bytes else Prefix(a.bytes, a.torn.value)
  }

  /** The bytes that reached the file. */
  function Landed(attempts: seq<Attempt>): Bytes {
    if attempts == [] then [] else Landed(attempts[..|attempts| - 1]) + LandedOf(attempts[|attempts| - 1])
  }

  /** The bytes that should have reached it. */
  function Offered(attempts: seq<Attempt>): Bytes {
    if attempts == [] then [] else Offered(attempts[..|attempts| - 1]) + attempts[|attempts| - 1].bytes
  }

  /** The bytes of the writes that succeeded, which alone are counted. */
  function Counted(attempts: seq<Attempt>): nat {
    if attempts == [] then 0
    else
      var last := attempts[|attempts| - 1];
      Counted(attempts[..|attempts| - 1]) + if last.torn.None? then |last.bytes| else 0
  }

  ghost predicate NoneCutShort(attempts: seq<Attempt>) {
    forall a :: a in attempts && a.torn.Some? ==> a.torn.value >= |a.bytes|
  }

  ghost predicate NoneLeftBytes(attempts: seq<Attempt>) {
    forall a :: a in attempts && a.torn.Some? ==> a.torn.value == 0 || a.bytes == []
  }

  lemma LastAttempt(attempts: seq<Attempt>)
    requires attempts != []
    ensures var init := attempts[..|attempts| - 1];
            var last := attempts[|attempts| - 1];
            && (NoneCutShort(attempts) <==> NoneCutShort(init) && LandedOf(last) == last.bytes)
            && (NoneLeftBytes(attempts) <==> NoneLeftBytes(init) && (last.torn.Some? ==> LandedOf(last) == []))
  {
    var init := attempts[..|attempts| - 1];
    assert attempts == init + [attempts[|attempts| - 1]];
    assert forall a :: a in attempts <==> a in init || a == attempts[|attempts| - 1];
  }

  lemma SplitEqual(a: Bytes, b: Bytes, c: Bytes, d: Bytes)
    requires |a| <= |c| && |b| <= |d|
    ensures a + b == c + d <==> a == c && b == d
  {
    if a + b == c + d {
      assert |a| == |c|;
      assert a == (a + b)[..|a|] && c == (c + d)[..|c|];
      assert b == (a + b)[|a|..] && d == (c + d)[|c|..];
    }
  }

  /** Exactly when everything offered has landed, and when the count is the length of what has. */
  lemma {:induction false} LandedIff(attempts: seq<Attempt>)
    ensures |Landed(attempts)| <= |Offered(attempts)|
    ensures Landed(attempts) == Offered(attempts) <==> NoneCutShort(attempts)
    ensures Counted(attempts) <= |Landed(attempts)|
    ensures Counted(attempts) == |Landed(attempts)| <==> NoneLeftBytes(attempts)
  {
    hide NoneCutShort, NoneLeftBytes;
    if attempts == [] {
      NoAttempts();
    } else {
      var init := attempts[..|attempts| - 1];
      var last := attempts[|attempts| - 1];
      LandedIff(init);
      LastAttempt(attempts);
      SplitEqual(Landed(init), LandedOf(last), Offered(init), last.bytes);
    }
  }

  lemma NoAttempts()
    ensures NoneCutShort([]) && NoneLeftBytes([])
  {
  }

  lemma LandedAppend(attempts: seq<Attempt>, a: Attempt)
    ensures Landed(attempts + [a]) == Landed(attempts) + LandedOf(a)
    ensures Counted(attempts + [a]) == Counted(attempts) + if a.torn.None? then |a.bytes| else 0
  {
    assert (attempts + [a])[..|attempts|] == attempts;
  }

  /** The count that a capture reports, on a u64. */
  function Reported(header: Bytes, attempts: seq<Attempt>): nat {
    Min(|header| + Counted(attempts), U64_MAX)
  }

  lemma ReportedAppend(header: Bytes, attempts: seq<Attempt>, a: Attempt)
    ensures Reported(header, attempts + [a]) ==
              if a.torn.None? then SaturatingAdd(Reported(header, attempts), |a.bytes|) else Reported(header, attempts)
    ensures header + Landed(attempts + [a]) == header + Landed(attempts) + LandedOf(a)
  {
    hide Landed, LandedOf;
    LandedAppend(attempts, a);
  }

  /**
   * What a successful capture publishes and reports: the whole capture iff no write cut its chunk short, and
   * the length of the file iff no failed write left bytes and the length fits the counter.
   */
  lemma PublishedIsWholeIff(header: Bytes, attempts: seq<Attempt>)
    ensures var content := header + Landed(attempts);
            && (content == header + Offered(attempts) <==> NoneCutShort(attempts))
            && (Reported(header, attempts) == |content| <==> NoneLeftBytes(attempts) && |content| <= U64_MAX)
  {
    LandedIff(attempts);
    SplitEqual(header, Landed(attempts), header, Offered(attempts));
  }

  class CaptureFileWriter {
    const disk: Disk
    const temporary: string
    const destination: string
    ghost const header: Bytes
    var bytesWritten: nat
    // the writes so far
    ghost var attempts: seq<Attempt>

    ghost predicate Valid()
      reads this, disk
    {
      && disk.Valid()
      && temporary != destination
      && bytesWritten == Reported(header, attempts)
      && Lookup(disk.files, temporary) == Some(File(Content()))
    }

    /** What the temporary file holds. */
    ghost function Content(): Bytes
      reads this
    {
      header + Landed(attempts)
    }

    constructor Opened(disk: Disk, temporary: string, destination: string, header: Bytes)
      requires disk.Valid() && temporary != destination && |header| <= U64_MAX
      requires Lookup(disk.files, temporary) == Some(File(header))
      ensures Valid() && fresh(this)
      ensures this.disk == disk && this.temporary == temporary && this.destination == destination
      ensures this.header == header && attempts == []
    {
      this.disk := disk;
      this.temporary := temporary;
      this.destination := destination;
      this.header := header;
      bytesWritten := |header|;
      attempts := [];
      assert header + [] == header;
    }

    method Write(bytes: Bytes, torn: Option<nat>) returns (ok: bool)
      requires Valid()
      modifies this, disk
      ensures Valid()
      ensures ok <==> torn.None?
      ensures attempts == old(attempts) + [Attempt(bytes, torn)]
      ensures Lookup(disk.files, temporary) == Some(File(old(Content()) + LandedOf(Attempt(bytes, torn))))
      ensures forall path :: path != temporary ==> Lookup(disk.files, path) == Lookup(old(disk.files), path)
    {
      hide Landed, Reported, Prefix;
      ReportedAppend(header, attempts, Attempt(bytes, torn));
      ok := disk.Append(temporary, bytes, torn);
      if ok {
        bytesWritten := SaturatingAdd(bytesWritten, |bytes|);
      }
      attempts := attempts + [Attempt(bytes, torn)];
    }

    /**
     * Some(count) is success, and publishes what the temporary file holds, which after a failed write is not
     * the whole capture. Whatever fails here, and wherever the program stops, the old content is not lost
     * before that is in place.
     */
    method FinishFile(backup: string, f: Faults) returns (result: Option<nat>, ghost states: seq<Files>)
      requires Valid()
      requires backup !in disk.files && backup != temporary && backup != destination
      modifies disk
      ensures disk.Valid()
      ensures disk.history == old(disk.history) + states
      ensures AllSafe(states, old(disk.files), Paths(temporary, destination, backup), Content())
      ensures StaysPublished(states, old(disk.files), Paths(temporary, destination, backup), Content())
      ensures OthersKept(disk.files, old(disk.files), Paths(temporary, destination, backup))
      ensures result.Some? <==>
                !f.flush && !f.sync && CanReplace(old(disk.files), Paths(temporary, destination, backup), f)
      ensures result.Some? ==>
                Lookup(disk.files, destination) == Some(File(Content())) && result.value == Reported(header, attempts)
      ensures result.Some? && backup in disk.files ==> f.discard
      ensures result.None? && !f.rollBack ==>
                Lookup(disk.files, destination) == Lookup(old(disk.files), destination) && backup !in disk.files
      ensures result.None? ==>
                var before := Lookup(old(disk.files), destination);
                || Lookup(disk.files, destination) == before
                || (Lookup(disk.files, destination) == None && Lookup(disk.files, backup) == before)
      ensures temporary in disk.files ==> result.None? && f.cleanUp
    {
      hide ReplaceStates, CanReplace, Landed, Reported;
      ghost var content := Content();
      var p := Paths(temporary, destination, backup);
      var ok := false;
      states := [];
      if !f.flush && !f.sync {
        ReplacementLosesNothing(disk.files, p, f, content);
        ReplacementEnds(disk.files, p, f, content);
        ok, states := ReplaceLocalFile(disk, p, f, content);
      }
      if ok {
        return Some(bytesWritten), states;
      }
      disk.Remove(temporary, f.cleanUp);
      states := states + [disk.files];
      result := None;
    }
  }

  lemma OverwriteNew(files: Files, path: string, first: Node, second: Node)
    requires path !in files
    ensures files[path := first][path := second] == files[path := second]
    ensures files[path := second] - {path} == files
  {
  }

  /** The temporary file with its header, or an error that removes it again unless the removal fails too. */
  method WriteHeader(disk: Disk, temporary: string, header: Bytes, fails: bool, torn: Option<nat>, cleanUp: bool) returns (ok: bool)
    requires disk.Valid()
    modifies disk
    ensures disk.Valid()
    ensures ok <==> !fails && temporary !in old(disk.files) && torn.None?
    ensures disk.files ==
              if fails || temporary in old(disk.files) then old(disk.files)
              else if ok then old(disk.files)[temporary := File(header)]
              else if cleanUp then old(disk.files)[temporary := File(Prefix(header, torn.value))]
              else old(disk.files)
  {
    hide Prefix;
    ok := disk.CreateNew(temporary, fails);
    if !ok {
      return;
    }
    ghost var landed := if torn.None? then header else Prefix(header, torn.value);
    assert [] + landed == landed;
    OverwriteNew(old(disk.files), temporary, File([]), File(landed));
    ok := disk.Append(temporary, header, torn);
    if !ok {
      disk.Remove(temporary, cleanUp);
    }
  }

  /**
   * `create`: null is the error. `unsuitable` says that the destination is no absolute .pcap path in an
   * accessible directory, or cannot be inspected; a header that cannot be written leaves at most a
   * stray temporary file.
   */
  method Create(disk: Disk, temporary: string, destination: string, header: Bytes, unsuitable: bool, fails: bool,
    torn: Option<nat>, cleanUp: bool)
    returns (writer: CaptureFileWriter?)
    requires disk.Valid() && temporary != destination && |header| <= U64_MAX
    modifies disk
    ensures disk.Valid()
    ensures writer != null ==> fresh(writer) && writer.Valid() && writer.disk == disk && writer.header == header
                               && writer.attempts == [] && writer.temporary == temporary && writer.destination == destination
    ensures unsuitable ==> disk.files == old(disk.files)
    ensures writer != null <==> !unsuitable && !fails && temporary !in old(disk.files) && torn.None?
                                && Lookup(old(disk.files), destination) != Some(Directory)
    ensures writer == null ==>
              Lookup(disk.files, temporary) ==
                if unsuitable || fails || temporary in old(disk.files) || Lookup(old(disk.files), destination) == Some(Directory)
                then Lookup(old(disk.files), temporary)
                else if cleanUp then Some(File(Prefix(header, torn.value))) else None
    ensures forall path :: path != temporary ==> Lookup(disk.files, path) == Lookup(old(disk.files), path)
  {
    hide Landed, Reported;
    if unsuitable || (destination in disk.files && disk.files[destination].Directory?) {
      return null;
    }
    var written := WriteHeader(disk, temporary, header, fails, torn, cleanUp);
    if !written {
      return null;
    }
    writer := new CaptureFileWriter.Opened(disk, temporary, destination, header);
  }

  /**
   * A whole capture, whose writes may fail: on success the destination holds the header and what landed, which
   * is the whole capture iff no write cut its chunk short, and the count is its length iff no failed write left
   * bytes.
   */
  method Capture(disk: Disk, temporary: string, destination: string, backup: string, header: Bytes, attempts: seq<Attempt>, f: Faults)
    returns (result: Option<nat>)
    requires disk.Valid() && temporary != destination && |header| <= U64_MAX
    requires temporary !in disk.files && backup !in disk.files && backup != temporary && backup != destination
    modifies disk
    ensures disk.Valid()
    ensures result.Some? <==>
              !f.flush && !f.sync && CanReplace(old(disk.files), Paths(temporary, destination, backup), f)
    ensures var content := header + Landed(attempts);
            result.Some? ==>
              && Lookup(disk.files, destination) == Some(File(content))
              && result.value == Reported(header, attempts)
              && (content == header + Offered(attempts) <==> NoneCutShort(attempts))
              && (result.value == |content| <==> NoneLeftBytes(attempts) && |content| <= U64_MAX)
              && temporary !in disk.files && (backup in disk.files ==> f.discard)
    ensures result.None? ==>
              var before := Lookup(old(disk.files), destination);
              || Lookup(disk.files, destination) == before
              || (Lookup(disk.files, destination) == None && Lookup(disk.files, backup) == before)
  {
    hide Landed, Offered, Counted, Reported, NoneCutShort, NoneLeftBytes;
    PublishedIsWholeIff(header, attempts);
    var writer := Create(disk, temporary, destination, header, false, false, None, false);
    if writer == null {
      return None;
    }
    for i := 0 to |attempts|
      invariant fresh(writer) && writer.Valid() && writer.disk == disk && writer.header == header
      invariant writer.temporary == temporary && writer.destination == destination
      invariant writer.attempts == attempts[..i]
      invariant forall path :: path != temporary ==> Lookup(disk.files, path) == Lookup(old(disk.files), path)
    {
      var ok := writer.Write(attempts[i].bytes, attempts[i].torn);
      assert attempts[..i + 1] == attempts[..i] + [attempts[i]];
    }
    assert attempts[..|attempts|] == attempts;
    assert Lookup(disk.files, backup) == None;
    ghost var states;
    result, states := writer.FinishFile(backup, f);
  }

  const NO_FAULTS := Faults(false, false, false, false, false, false, false, false)

  /** A write that fails half-way, and nothing else going wrong: the old capture is gone, its place taken by a torn one whose length is misreported. */
  method TornCaptureReplacesOld(
    disk: Disk, temporary: string, destination: string, backup: string, header: Bytes, bytes: Bytes, k: nat)
    returns (result: Option<nat>)
    requires disk.Valid() && temporary != destination && |header| + |bytes| <= U64_MAX
    requires temporary !in disk.files && backup !in disk.files && backup != temporary && backup != destination
    requires Lookup(disk.files, destination).Some? && Lookup(disk.files, destination).value.File?
    requires 0 < k < |bytes|
    modifies disk
    ensures result == Some(|header|)
    ensures Lookup(disk.files, destination) == Some(File(header + bytes[..k]))
    ensures |header + bytes[..k]| > |header|
    ensures temporary !in disk.files && backup !in disk.files
  {
    hide AllSafe, StaysPublished;
    var torn := Attempt(bytes, Some(k));
    LandedAppend([], torn);
    assert [] + [torn] == [torn] && [] + LandedOf(torn) == bytes[..k];
    result := Capture(disk, temporary, destination, backup, header, [torn], NO_FAULTS);
  }
}
