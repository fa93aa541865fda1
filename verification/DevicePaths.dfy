// Device-relative paths, in both implementations: crates/devicehub-core/src/storage.rs:31-119
// and src/afcBrowser.ts:14-23, with `parentPath` of src/components/DeviceFilesPane.tsx:49-53.
module DevicePaths {
  import opened Prelude
  import opened Text

  const MAX_PATH_BYTES: nat := 1024
  const MAX_NAME_BYTES: nat := 255

  datatype PathError = InvalidPath | InvalidName | RootRefused

  // ----- the Rust implementation -----

  function TrimSlashesStart(s: string): string {
    if s != "" && s[0] == '/' then TrimSlashesStart(s[1..]) else s
  }

  function TrimSlashesEnd(s: string): string {
    if s != "" && s[|s| - 1] == '/' then TrimSlashesEnd(s[..|s| - 1]) else s
  }

  function NonEmpty(parts: seq<string>): seq<string> {
    if parts == [] then []
    else (if parts[0] == "" then [] else [parts[0]]) + NonEmpty(parts[1..])
  }

  predicate ForbiddenInPath(c: char) {
    c == '\0' || c == '\\'
  }

  /** `validate_storage_name` accepts. */
  predicate IsValidName(name: string) {
    && name != "" && name != "." && name != ".."
    && Utf8Len(name) <= MAX_NAME_BYTES
    && forall i :: 0 <= i < |name| ==> name[i] != '/' && !ForbiddenInPath(name[i])
  }

  function ValidateName(name: string): Result<string, PathError> {
    if IsValidName(name) then Ok(name) else Err(InvalidName)
  }

  /** `collect::<Result<Vec<_>, _>>()`: the first refused component decides. */
  function ValidateAll(parts: seq<string>): Result<seq<string>, PathError> {
    if parts == [] then Ok([])
    else
      var first := ValidateName(parts[0]);
      if first.Err? then Err(first.error)
      else
        var rest := ValidateAll(parts[1..]);
        if rest.Err? then rest else Ok([first.value] + rest.value)
  }

  function Normalize(path: string, allowRoot: bool): Result<string, PathError> {
    if Utf8Len(path) > MAX_PATH_BYTES || exists i :: 0 <= i < |path| && ForbiddenInPath(path[i]) then Err(InvalidPath)
    else
      var components := ValidateAll(NonEmpty(Split(TrimSlashesEnd(TrimSlashesStart(path)), '/')));
      if components.Err? then Err(components.error)
      else if components.value == [] then (if allowRoot then Ok("/") else Err(RootRefused))
      else Ok("/" + Join(components.value, '/'))
  }

  /** What `join_storage_path` hands to the normaliser. */
  function Joined(directory: string, name: string): string {
    if directory == "/" then "/" + name else directory + "/" + name
  }

  function JoinPath(directory: string, name: string): Result<string, PathError> {
    if !IsValidName(name) then Err(InvalidName)
    else Normalize(Joined(directory, name), false)
  }

  // ----- the TypeScript implementation -----

  function NormalizeAfc(path: string): Option<string> {
    if Utf8Len(path) > MAX_PATH_BYTES || exists i :: 0 <= i < |path| && ForbiddenInPath(path[i]) then None
    else
      var components := NonEmpty(Split(path, '/'));
      if exists i :: 0 <= i < |components|
                     && (components[i] == "." || components[i] == ".." || Utf8Len(components[i]) > MAX_NAME_BYTES)
      then None
      else Some(if components == [] then "/" else "/" + Join(components, '/'))
  }

  function ParentPath(path: string): string {
    var parts := NonEmpty(Split(path, '/'));
    var kept := if parts == [] then [] else parts[..|parts| - 1];
    if kept == [] then "/" else "/" + Join(kept, '/')
  }

  // ----- the meaning of a path: its list of components -----

  function Components(path: string): seq<string> {
    NonEmpty(Split(path, '/'))
  }

  ghost predicate IsPart(s: string) {
    s != "" && forall i :: 0 <= i < |s| ==> s[i] != '/'
  }

  ghost predicate AreParts(parts: seq<string>) {
    forall i :: 0 <= i < |parts| ==> IsPart(parts[i])
  }

  lemma {:induction false} SplitSlashFirst(s: string)
    requires s != "" && s[0] == '/'
    ensures Components(s) == Components(s[1..])
  {
    assert Split(s, '/')[0] == "" && Split(s, '/')[1..] == Split(s[1..], '/');
  }

  lemma {:induction false} SplitAppendSlash(s: string)
    ensures Split(s + "/", '/') == Split(s, '/') + [""]
  {
    if s == "" {
      assert s + "/" == "/";
      assert "/"[1..] == "";
    } else {
      assert (s + "/")[1..] == s[1..] + "/";
      SplitAppendSlash(s[1..]);
    }
  }

  lemma {:induction false} NonEmptyConcat(a: seq<string>, b: seq<string>)
    ensures NonEmpty(a + b) == NonEmpty(a) + NonEmpty(b)
  {
    if a == [] {
      assert a + b == b;
    } else {
      assert (a + b)[1..] == a[1..] + b;
      NonEmptyConcat(a[1..], b);
    }
  }

  lemma {:induction false} TrimStartKeepsComponents(s: string)
    ensures Components(TrimSlashesStart(s)) == Components(s)
  {
    if s != "" && s[0] == '/' {
      SplitSlashFirst(s);
      TrimStartKeepsComponents(s[1..]);
    }
  }

  lemma {:induction false} TrimEndKeepsComponents(s: string)
    ensures Components(TrimSlashesEnd(s)) == Components(s)
    decreases |s|
  {
    if s != "" && s[|s| - 1] == '/' {
      var init := s[..|s| - 1];
      assert s == init + "/";
      SplitAppendSlash(init);
      NonEmptyConcat(Split(init, '/'), [""]);
      TrimEndKeepsComponents(init);
    }
  }

  /** Splitting a part followed by a slash peels it off; a part alone is its own split. */
  lemma {:induction false} SplitPart(part: string, rest: string)
    requires forall i :: 0 <= i < |part| ==> part[i] != '/'
    ensures Split(part + "/" + rest, '/') == [part] + Split(rest, '/')
    ensures Split(part, '/') == [part]
  {
    if part == "" {
      assert part + "/" + rest == "/" + rest;
      assert ("/" + rest)[1..] == rest;
    } else {
      assert (part + "/" + rest)[1..] == part[1..] + "/" + rest;
      assert [part[0]] + part[1..] == part;
      SplitPart(part[1..], rest);
    }
  }

  lemma NonEmptyOfOne(part: string)
    ensures NonEmpty([part]) == if part == "" then [] else [part]
  {
    assert [part][1..] == [];
  }

  lemma {:induction false} ComponentsOfJoin(parts: seq<string>)
    requires AreParts(parts)
    ensures Components(Join(parts, '/')) == parts
    ensures parts != [] ==> Components("/" + Join(parts, '/')) == parts
  {
    if parts == [] {
      NonEmptyOfOne("");
      assert Split("", '/') == [""];
    } else {
      assert IsPart(parts[0]);
      NonEmptyOfOne(parts[0]);
      if |parts| == 1 {
        SplitPart(parts[0], "");
        assert parts == [parts[0]];
      } else {
        var rest := Join(parts[1..], '/');
        ComponentsOfJoin(parts[1..]);
        SplitPart(parts[0], rest);
        assert Join(parts, '/') == parts[0] + "/" + rest;
        NonEmptyConcat([parts[0]], Split(rest, '/'));
        assert parts == [parts[0]] + parts[1..];
      }
      assert ("/" + Join(parts, '/'))[1..] == Join(parts, '/');
      SplitSlashFirst("/" + Join(parts, '/'));
    }
  }

  // ----- where components come from -----

  lemma {:induction false} SplitPartsAreClean(s: string)
    ensures forall p, c :: p in Split(s, '/') && c in p ==> c != '/' && c in s
  {
    if s != "" {
      SplitPartsAreClean(s[1..]);
      assert forall c :: c in s[1..] ==> c in s;
    }
  }

  lemma {:induction false} NonEmptyParts(parts: seq<string>)
    ensures forall p :: p in NonEmpty(parts) <==> p in parts && p != ""
  {
    if parts != [] {
      NonEmptyParts(parts[1..]);
    }
  }

  /** Components are non-empty, contain no slash, and no character that the path does not. */
  lemma ComponentsAreParts(path: string)
    ensures AreParts(Components(path))
    ensures forall p, c :: p in Components(path) && c in p ==> c in path
  {
    var parts := Split(path, '/');
    SplitPartsAreClean(path);
    NonEmptyParts(parts);
    forall i | 0 <= i < |Components(path)| ensures IsPart(Components(path)[i]) {
      var part := Components(path)[i];
      assert part in Components(path);
      forall j | 0 <= j < |part| ensures part[j] != '/' {
        assert part[j] in part;
      }
    }
  }

  lemma {:induction false} ValidateAllIs(parts: seq<string>)
    ensures ValidateAll(parts).Ok? <==> forall i :: 0 <= i < |parts| ==> IsValidName(parts[i])
    ensures ValidateAll(parts).Ok? ==> ValidateAll(parts).value == parts
    ensures ValidateAll(parts).Err? ==> ValidateAll(parts).error == InvalidName
  {
    if parts != [] {
      ValidateAllIs(parts[1..]);
    }
  }

  // ----- canonical paths -----

  /** The one spelling of a component list that normalisation produces. */
  function Canonical(parts: seq<string>): string {
    if parts == [] then "/" else "/" + Join(parts, '/')
  }

  ghost predicate AllValid(parts: seq<string>) {
    forall i :: 0 <= i < |parts| ==> IsValidName(parts[i])
  }

  ghost predicate HasForbidden(path: string) {
    exists i :: 0 <= i < |path| && ForbiddenInPath(path[i])
  }

  /** Exactly which paths are accepted, and that the answer is the canonical spelling of the same components. */
  lemma NormalizeIs(path: string, allowRoot: bool)
    ensures Normalize(path, allowRoot) ==
              if Utf8Len(path) > MAX_PATH_BYTES || HasForbidden(path) then Err(InvalidPath)
              else if !AllValid(Components(path)) then Err(InvalidName)
              else if Components(path) == [] && !allowRoot then Err(RootRefused)
              else Ok(Canonical(Components(path)))
  {
    TrimStartKeepsComponents(path);
    TrimEndKeepsComponents(TrimSlashesStart(path));
    ValidateAllIs(Components(path));
  }

  lemma CanonicalComponents(parts: seq<string>)
    requires AreParts(parts)
    ensures Components(Canonical(parts)) == parts
  {
    ComponentsOfJoin(parts);
    if parts == [] {
      assert "/"[1..] == "";
      SplitSlashFirst("/");
    }
  }

  lemma {:induction false} JoinChars(parts: seq<string>)
    requires AllValid(parts)
    ensures !HasForbidden(Join(parts, '/'))
  {
    if |parts| > 1 {
      JoinChars(parts[1..]);
    }
  }

  lemma CanonicalIsClean(parts: seq<string>)
    requires AllValid(parts)
    ensures !HasForbidden(Canonical(parts))
  {
    JoinChars(parts);
  }

  lemma ValidAreParts(parts: seq<string>)
    requires AllValid(parts)
    ensures AreParts(parts)
  {
  }

  // ----- lengths -----

  lemma {:induction false} JoinOfSplit(s: string)
    ensures Join(Split(s, '/'), '/') == s
  {
    if s != "" {
      JoinOfSplit(s[1..]);
      var rest := Split(s[1..], '/');
      if s[0] == '/' {
        assert Split(s, '/') == [""] + rest;
        assert "" + ['/'] + s[1..] == s;
      } else {
        assert Split(s, '/') == [[s[0]] + rest[0]] + rest[1..];
        assert [s[0]] + s[1..] == s;
        if |rest| > 1 {
          assert [s[0]] + (rest[0] + ['/'] + Join(rest[1..], '/')) == ([s[0]] + rest[0]) + ['/'] + Join(rest[1..], '/');
        }
      }
    }
  }

  /** Dropping empty parts shortens the path, unless there was nothing to drop. */
  lemma {:induction false} NonEmptyShortens(parts: seq<string>)
    ensures Utf8Len(Join(NonEmpty(parts), '/')) <= Utf8Len(Join(parts, '/'))
    ensures Utf8Len(Join(NonEmpty(parts), '/')) == Utf8Len(Join(parts, '/')) ==> Join(NonEmpty(parts), '/') == Join(parts, '/')
  {
    if |parts| == 1 {
      assert NonEmpty(parts[1..]) == [];
    } else if |parts| > 1 {
      var first, rest := parts[0], parts[1..];
      NonEmptyShortens(rest);
      Utf8LenConcat(first, ['/']);
      Utf8LenConcat(first + ['/'], Join(rest, '/'));
      if first != "" {
        if NonEmpty(rest) == [] {
          assert NonEmpty(parts) == [first];
        } else {
          assert NonEmpty(parts) == [first] + NonEmpty(rest);
          assert NonEmpty(parts)[1..] == NonEmpty(rest);
          Utf8LenConcat(first + ['/'], Join(NonEmpty(rest), '/'));
        }
      } else {
        assert NonEmpty(parts) == NonEmpty(rest);
      }
    }
  }

  /** The canonical spelling is at most one byte longer, and that only when it just adds the leading slash. */
  lemma CanonicalLength(path: string)
    ensures var c := Canonical(Components(path));
            && Utf8Len(c) <= Utf8Len(path) + 1
            && (Utf8Len(c) == Utf8Len(path) + 1 <==> c == "/" + path)
  {
    NonEmptyShortens(Split(path, '/'));
    JoinOfSplit(path);
    Utf8LenConcat("/", Join(Components(path), '/'));
    Utf8LenConcat("/", path);
    assert Join([], '/') == "";
    assert "/" + "" == "/";
  }

  // ----- main results -----

  /** A normalised path spells the same components, and re-normalises to itself exactly when it fits the byte limit. */
  lemma NormalizeRoundTrip(path: string, allowRoot: bool)
    ensures Normalize(path, allowRoot).Ok? ==>
              var r := Normalize(path, allowRoot).value;
              && Components(r) == Components(path)
              && (Normalize(r, allowRoot) == Ok(r) <==> Utf8Len(r) <= MAX_PATH_BYTES)
              && (Utf8Len(r) > MAX_PATH_BYTES ==> Normalize(r, allowRoot) == Err(InvalidPath))
              && (Utf8Len(r) > MAX_PATH_BYTES <==> Utf8Len(path) == MAX_PATH_BYTES && r == "/" + path)
  {
    hide Normalize, IsValidName, HasForbidden, NonEmpty, Split, Join, Canonical;
    NormalizeIs(path, allowRoot);
    var parts := Components(path);
    if Normalize(path, allowRoot).Ok? {
      var r := Canonical(parts);
      ValidAreParts(parts);
      CanonicalComponents(parts);
      CanonicalIsClean(parts);
      NormalizeIs(r, allowRoot);
      CanonicalLength(path);
    }
  }

  /** Five components of 204 letters, joined without a leading slash: 1,024 bytes become 1,025, which are then refused. */
  lemma NormalizedPathCanBeRefused() returns (path: string)
    ensures Utf8Len(path) == MAX_PATH_BYTES
    ensures Normalize(path, false) == Ok("/" + path) && Normalize("/" + path, false) == Err(InvalidPath)
  {
    hide Normalize, IsValidName;
    var part := seq(204, _ => 'a');
    AsciiLen(part);
    assert IsValidName(part) by {
      ManyLettersAreAName(part);
    }
    var parts := [part, part, part, part, part];
    path := Join(parts, '/');
    assert path == part + "/" + part + "/" + part + "/" + part + "/" + part by {
      JoinFive(part);
    }
    AsciiLen(path);
    assert AllValid(parts);
    ValidAreParts(parts);
    ComponentsOfJoin(parts);
    JoinChars(parts);
    NormalizeIs(path, false);
    Utf8LenConcat("/", path);
    NormalizeRoundTrip(path, false);
  }

  lemma ManyLettersAreAName(part: string)
    requires |part| == 204 && forall i :: 0 <= i < |part| ==> part[i] == 'a'
    ensures IsValidName(part)
  {
    AsciiLen(part);
  }

  lemma JoinFive(p: string)
    ensures Join([p, p, p, p, p], '/') == p + "/" + p + "/" + p + "/" + p + "/" + p
  {
    assert Join([p], '/') == p;
    assert [p, p][1..] == [p];
    assert Join([p, p], '/') == p + "/" + p;
    assert [p, p, p][1..] == [p, p];
    assert Join([p, p, p], '/') == p + "/" + (p + "/" + p);
    assert [p, p, p, p][1..] == [p, p, p];
    assert Join([p, p, p, p], '/') == p + "/" + Join([p, p, p], '/');
    assert [p, p, p, p, p][1..] == [p, p, p, p];
  }

  lemma {:induction false} JoinAppend(parts: seq<string>, name: string)
    requires parts != []
    ensures Join(parts + [name], '/') == Join(parts, '/') + "/" + name
  {
    if |parts| == 1 {
      assert (parts + [name])[1..] == [name];
      assert Join([name], '/') == name;
    } else {
      assert (parts + [name])[1..] == parts[1..] + [name];
      JoinAppend(parts[1..], name);
    }
  }

  lemma JoinedIsCanonical(parts: seq<string>, name: string)
    requires AllValid(parts) && IsValidName(name)
    ensures Joined(Canonical(parts), name) == Canonical(parts + [name])
  {
    if parts == [] {
      assert parts + [name] == [name];
    } else {
      JoinAppend(parts, name);
      assert |Join(parts, '/')| > 0 by {
        assert |parts[0]| > 0;
      }
      assert "/" + Join(parts, '/') + "/" + name == "/" + (Join(parts, '/') + "/" + name);
    }
  }

  /** Joining onto a normalised directory appends one component, unless it no longer fits; `parentPath` undoes it. */
  lemma JoinAppendsComponent(path: string, name: string)
    requires Normalize(path, true).Ok?
    ensures var d := Normalize(path, true).value;
            && (JoinPath(d, name).Ok? <==> IsValidName(name) && Utf8Len(Joined(d, name)) <= MAX_PATH_BYTES)
            && (!IsValidName(name) ==> JoinPath(d, name) == Err(InvalidName))
            && (IsValidName(name) && JoinPath(d, name).Err? ==> JoinPath(d, name) == Err(InvalidPath))
            && (JoinPath(d, name).Ok? ==>
                  var r := JoinPath(d, name).value;
                  r == Joined(d, name) && Components(r) == Components(d) + [name] && ParentPath(r) == d)
  {
    hide Normalize, IsValidName, HasForbidden, NonEmpty, Split, Join, Joined, Canonical;
    NormalizeIs(path, true);
    var parts := Components(path);
    ValidAreParts(parts);
    CanonicalComponents(parts);
    ParentOfCanonical(parts, name);
    if IsValidName(name) {
      var more := parts + [name];
      JoinedIsCanonical(parts, name);
      ValidAreParts(more);
      CanonicalComponents(more);
      CanonicalIsClean(more);
      NormalizeIs(Canonical(more), false);
    }
  }

  lemma ParentOfCanonical(parts: seq<string>, name: string)
    requires AllValid(parts)
    ensures IsValidName(name) ==> ParentPath(Canonical(parts + [name])) == Canonical(parts)
  {
    hide NonEmpty, Split, Join;
    if IsValidName(name) {
      var more := parts + [name];
      ValidAreParts(more);
      CanonicalComponents(more);
      assert more[..|more| - 1] == parts;
    }
  }

  /** Of a path without forbidden characters, the components pass the Rust check iff they pass the TypeScript one. */
  lemma ChecksAgree(path: string, part: string)
    requires !HasForbidden(path) && part in Components(path)
    ensures IsValidName(part) <==> part != "." && part != ".." && Utf8Len(part) <= MAX_NAME_BYTES
  {
    ComponentsAreParts(path);
    var i :| 0 <= i < |Components(path)| && Components(path)[i] == part;
    assert IsPart(Components(path)[i]);
    forall j | 0 <= j < |part| ensures !ForbiddenInPath(part[j]) {
      assert part[j] in part;
      var k :| 0 <= k < |path| && path[k] == part[j];
    }
  }

  /** The two implementations agree on every input. */
  lemma ImplementationsAgree(path: string)
    ensures NormalizeAfc(path) == match Normalize(path, true)
              case Ok(s) => Some(s)
              case Err(_) => None
  {
    hide Normalize, IsValidName;
    NormalizeIs(path, true);
    var parts := Components(path);
    if !HasForbidden(path) {
      forall i | 0 <= i < |parts|
        ensures IsValidName(parts[i]) <==> parts[i] != "." && parts[i] != ".." && Utf8Len(parts[i]) <= MAX_NAME_BYTES
      {
        ChecksAgree(path, parts[i]);
      }
    }
  }

  /** Which paths are accepted, in plain terms: at most 1,024 bytes, no NUL or backslash, and only usable components. */
  lemma NormalizeAcceptsIff(path: string, allowRoot: bool)
    ensures Normalize(path, allowRoot).Ok? <==>
              && Utf8Len(path) <= 1024 && '\0' !in path && '\\' !in path
              && (forall p :: p in Components(path) ==> p != "." && p != ".." && Utf8Len(p) <= 255)
              && (Components(path) == [] ==> allowRoot)
  {
    hide Normalize, IsValidName;
    NormalizeIs(path, allowRoot);
    if !HasForbidden(path) {
      forall p | p in Components(path) ensures IsValidName(p) <==> p != "." && p != ".." && Utf8Len(p) <= 255 {
        ChecksAgree(path, p);
      }
    }
    assert HasForbidden(path) <==> '\0' in path || '\\' in path;
    assert AllValid(Components(path)) <==> forall p :: p in Components(path) ==> IsValidName(p);
  }

  /** Which names can be joined. */
  lemma NameIff(name: string)
    ensures ValidateName(name).Ok? <==>
              && name !in {"", ".", ".."} && Utf8Len(name) <= 255
              && '/' !in name && '\\' !in name && '\0' !in name
  {
  }

  /** Components are the non-empty stretches between slashes. */
  lemma ComponentsOfSlashed(before: string, after: string)
    ensures Components(before + "/" + after) == Components(before) + Components(after)
  {
    SplitAtSlash(before, after);
    NonEmptyConcat(Split(before, '/'), Split(after, '/'));
  }

  lemma FirstPart(c: char, rest: seq<string>, more: seq<string>)
    requires rest != []
    ensures [""] + rest + more == [""] + (rest + more)
    ensures ([[c] + rest[0]] + rest[1..]) + more == [[c] + (rest + more)[0]] + (rest + more)[1..]
  {
  }

  lemma {:induction false} SplitAtSlash(before: string, after: string)
    ensures Split(before + "/" + after, '/') == Split(before, '/') + Split(after, '/')
  {
    if before == "" {
      assert before + "/" + after == "/" + after;
      assert ("/" + after)[1..] == after;
    } else {
      SplitAtSlash(before[1..], after);
      assert (before + "/" + after)[1..] == before[1..] + "/" + after;
      FirstPart(before[0], Split(before[1..], '/'), Split(after, '/'));
    }
  }
}
