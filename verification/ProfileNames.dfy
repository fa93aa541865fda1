// Fresh names for imported profiles (src/mappingImport.ts:135-160).
module ProfileNames {
  import opened Prelude
  import opened Text
  import opened KeyMapping

  const MAX_NAME: nat := 80

  /** The largest time value of ECMAScript. */
  const MAX_TIME: nat := 8_640_000_000_000_000

  /** JavaScript arrays hold fewer than 2^32 elements. */
  const MAX_ARRAY: nat := 0x1_0000_0000

  // ----- the base name -----

  function Lower(c: char): char {
    if 'A' <= c <= 'Z' then (c as int + 32) as char else c
  }

  predicate EndsWithIgnoringCase(s: string, ending: string) {
    |s| >= |ending| && forall i :: 0 <= i < |ending| ==> Lower(s[|s| - |ending| + i]) == ending[i]
  }

  function WithoutEnding(s: string, ending: string): string {
    if EndsWithIgnoringCase(s, ending) then s[..|s| - |ending|] else s
  }

  /** Removes `.json` or `.playmap`, and a `.scrcpy-mask` before it. */
  function WithoutExtension(fileName: string): string {
    var stem := if EndsWithIgnoringCase(fileName, ".json") then WithoutEnding(fileName, ".json")
                else WithoutEnding(fileName, ".playmap");
    if stem == fileName then fileName else WithoutEnding(stem, ".scrcpy-mask")
  }

  predicate IsNameChar(c: char) {
    IsAlphanumeric(c) || c == '-' || c == '_'
  }

  /** Every maximal run of other characters becomes one dash; `inRun` says that one has just been written. */
  function Dashed(s: string, inRun: bool): string {
    if s == "" then ""
    else if IsNameChar(s[0]) then [s[0]] + Dashed(s[1..], false)
    else (if inRun then "" else "-") + Dashed(s[1..], true)
  }

  function TrimDashesStart(s: string): string {
    if s != "" && s[0] == '-' then TrimDashesStart(s[1..]) else s
  }

  function TrimDashesEnd(s: string): string {
    if s != "" && s[|s| - 1] == '-' then TrimDashesEnd(s[..|s| - 1]) else s
  }

  function BaseName(fileName: string, now: nat): string {
    var imported := Prefix(TrimDashesEnd(TrimDashesStart(Dashed(WithoutExtension(fileName), false))), MAX_NAME);
    if imported == "" then "import-" + Decimal(now) else imported
  }

  // ----- which names are kept -----

  ghost predicate IsPlainName(s: string) {
    1 <= |s| <= MAX_NAME && s[0] != '-' && s[|s| - 1] != '-' && forall i :: 0 <= i < |s| ==> IsNameChar(s[i])
  }

  lemma {:induction false} DashedKeepsNames(s: string)
    requires forall i :: 0 <= i < |s| ==> IsNameChar(s[i])
    ensures Dashed(s, false) == s
  {
    if s != "" {
      DashedKeepsNames(s[1..]);
    }
  }

  lemma NoDotNoEnding(s: string, ending: string)
    requires forall i :: 0 <= i < |s| ==> IsNameChar(s[i])
    requires ending != "" && ending[0] == '.'
    ensures !EndsWithIgnoringCase(s, ending)
  {
    if |s| >= |ending| {
      assert IsNameChar(s[|s| - |ending|]);
      assert Lower(s[|s| - |ending|]) != ending[0];
    }
  }

  lemma EndingIsStripped(stem: string, ending: string)
    requires forall i :: 0 <= i < |ending| ==> Lower(ending[i]) == ending[i]
    ensures EndsWithIgnoringCase(stem + ending, ending) && WithoutEnding(stem + ending, ending) == stem
  {
    assert (stem + ending)[..|stem|] == stem;
  }

  lemma ExtensionsAreStripped(stem: string)
    requires forall i :: 0 <= i < |stem| ==> IsNameChar(stem[i])
    ensures WithoutExtension(stem) == stem
    ensures WithoutExtension(stem + ".json") == stem
    ensures WithoutExtension(stem + ".playmap") == stem
    ensures WithoutExtension(stem + ".scrcpy-mask" + ".json") == stem
  {
    hide EndsWithIgnoringCase, WithoutEnding;
    NoDotNoEnding(stem, ".json");
    NoDotNoEnding(stem, ".playmap");
    NoDotNoEnding(stem, ".scrcpy-mask");
    EndingIsStripped(stem, ".json");
    EndingIsStripped(stem, ".playmap");
    EndingIsStripped(stem, ".scrcpy-mask");
    EndingIsStripped(stem + ".scrcpy-mask", ".json");
    PlaymapIsNotJson(stem);
    NoEndingKept(stem, ".playmap");
    NoEndingKept(stem, ".scrcpy-mask");
  }

  lemma NoEndingKept(s: string, ending: string)
    requires !EndsWithIgnoringCase(s, ending)
    ensures WithoutEnding(s, ending) == s
  {
  }

  lemma PlaymapIsNotJson(stem: string)
    ensures !EndsWithIgnoringCase(stem + ".playmap", ".json")
  {
    var s := stem + ".playmap";
    assert s[|s| - 1] == 'p';
    assert Lower(s[|s| - 5 + 4]) != ".json"[4];
  }

  /** A plain profile name comes back from its file name, with any of the extensions or none. */
  lemma PlainNameIsKept(stem: string, now: nat)
    requires IsPlainName(stem)
    ensures BaseName(stem, now) == stem
    ensures BaseName(stem + ".json", now) == stem
    ensures BaseName(stem + ".playmap", now) == stem
    ensures BaseName(stem + ".scrcpy-mask" + ".json", now) == stem
  {
    hide WithoutExtension;
    ExtensionsAreStripped(stem);
    DashedKeepsNames(stem);
  }

  // ----- candidates -----

  function Ending(suffix: nat): string {
    "-import-" + Decimal(suffix)
  }

  /** `slice(0, room)`: a negative room counts from the end. */
  function Sliced(s: string, room: int): string {
    if room >= 0 then Prefix(s, room) else Prefix(s, Max(0, |s| + room))
  }

  function Candidate(base: string, suffix: nat): string {
    Sliced(base, MAX_NAME - |Ending(suffix)|) + Ending(suffix)
  }

  /** The part after the last dash. */
  function AfterLastDash(s: string): string
    decreases |s|
  {
    if s == "" || s[|s| - 1] == '-' then "" else AfterLastDash(s[..|s| - 1]) + [s[|s| - 1]]
  }

  lemma {:induction false} AfterDash(s: string, digits: string)
    requires s != "" && s[|s| - 1] == '-'
    requires forall c :: c in digits ==> c != '-'
    ensures AfterLastDash(s + digits) == digits
    decreases |digits|
  {
    if digits == "" {
      assert s + digits == s;
    } else {
      var init := digits[..|digits| - 1];
      assert (s + digits)[..|s + digits| - 1] == s + init;
      assert forall c :: c in init ==> c in digits;
      assert digits[|digits| - 1] in digits;
      AfterDash(s, init);
      assert init + [digits[|digits| - 1]] == digits;
    }
  }

  /** A candidate ends in its own number, whatever the base was cut down to. */
  lemma CandidateNumber(base: string, suffix: nat)
    ensures DecimalValue(AfterLastDash(Candidate(base, suffix))) == suffix
  {
    var head := Sliced(base, MAX_NAME - |Ending(suffix)|) + "-import-";
    assert Candidate(base, suffix) == head + Decimal(suffix);
    AfterDash(head, Decimal(suffix));
    DecimalRoundTrip(suffix);
  }

  lemma EndingIsShort(suffix: nat)
    requires suffix <= MAX_ARRAY + 1
    ensures 9 <= |Ending(suffix)| <= 18
  {
    assert Pow10(10) == 10000000000;
    DecimalLength(suffix, 10, Pow10(10));
  }

  // ----- the base name is a profile name -----

  lemma {:induction false} DashedChars(s: string, inRun: bool)
    ensures forall i :: 0 <= i < |Dashed(s, inRun)| ==> IsNameChar(Dashed(s, inRun)[i])
  {
    if s != "" {
      DashedChars(s[1..], false);
      DashedChars(s[1..], true);
    }
  }

  lemma {:induction false} TrimsKeepChars(s: string)
    requires forall i :: 0 <= i < |s| ==> IsNameChar(s[i])
    ensures forall i :: 0 <= i < |TrimDashesStart(s)| ==> IsNameChar(TrimDashesStart(s)[i])
    ensures forall i :: 0 <= i < |TrimDashesEnd(s)| ==> IsNameChar(TrimDashesEnd(s)[i])
    decreases |s|
  {
    if s != "" {
      TrimsKeepChars(s[1..]);
      TrimsKeepChars(s[..|s| - 1]);
    }
  }

  /** Name characters take one byte each, so length and byte length agree. */
  lemma NameFromChars(s: string)
    requires 1 <= |s| <= MAX_NAME && forall i :: 0 <= i < |s| ==> IsNameChar(s[i])
    ensures IsProfileName(s)
  {
    AsciiLen(s);
  }

  lemma BaseIsProfileName(fileName: string, now: nat)
    requires now <= MAX_TIME
    ensures IsProfileName(BaseName(fileName, now)) && |BaseName(fileName, now)| <= MAX_NAME
    ensures forall i :: 0 <= i < |BaseName(fileName, now)| ==> IsNameChar(BaseName(fileName, now)[i])
  {
    var dashed := Dashed(WithoutExtension(fileName), false);
    DashedChars(WithoutExtension(fileName), false);
    TrimsKeepChars(dashed);
    TrimsKeepChars(TrimDashesStart(dashed));
    assert Pow10(4) == 10000;
    assert Pow10(8) == 100000000;
    assert Pow10(12) == 1000000000000;
    assert Pow10(16) == 10000000000000000;
    DecimalLength(now, 16, Pow10(16));
    assert forall i :: 0 <= i < |Decimal(now)| ==> Decimal(now)[i] in Decimal(now);
    NameFromChars(BaseName(fileName, now));
  }

  lemma CandidateIsProfileName(base: string, suffix: nat)
    requires |Ending(suffix)| <= MAX_NAME && forall i :: 0 <= i < |base| ==> IsNameChar(base[i])
    ensures IsProfileName(Candidate(base, suffix))
  {
    assert forall i :: 0 <= i < |Decimal(suffix)| ==> Decimal(suffix)[i] in Decimal(suffix);
    NameFromChars(Candidate(base, suffix));
  }

  // ----- the search -----

  /** The candidates numbered from 2 up to `suffix` exclusive. */
  function Tried(base: string, suffix: nat): set<string> {
    if suffix <= 2 then {} else Tried(base, suffix - 1) + {Candidate(base, suffix - 1)}
  }

  lemma {:induction false} TriedAre(base: string, suffix: nat)
    requires 2 <= suffix
    ensures |Tried(base, suffix)| == suffix - 2
    ensures forall name :: name in Tried(base, suffix) ==>
              2 <= DecimalValue(AfterLastDash(name)) < suffix && name == Candidate(base, DecimalValue(AfterLastDash(name)))
  {
    hide Candidate, DecimalValue, AfterLastDash;
    if suffix > 2 {
      TriedAre(base, suffix - 1);
      CandidateNumber(base, suffix - 1);
    }
  }

  function Names(existing: seq<string>): set<string> {
    set name | name in existing
  }

  /** Tried names are distinct: if all are in use, they cannot outnumber the names in use; nor can they with the base name added. */
  lemma TriedFit(base: string, suffix: nat, existing: seq<string>)
    requires 2 <= suffix && base in existing
    requires Tried(base, suffix) <= Names(existing)
    ensures suffix - 2 <= |Names(existing)|
    ensures suffix - 2 < |Names(existing)| || exists k :: 2 <= k < suffix && Candidate(base, k) == base
  {
    TriedAre(base, suffix);
    SubsetSize(Tried(base, suffix), Names(existing));
    if base !in Tried(base, suffix) {
      SubsetSize(Tried(base, suffix) + {base}, Names(existing));
    } else {
      assert Candidate(base, DecimalValue(AfterLastDash(base))) == base;
    }
  }

  lemma {:induction false} DistinctCount(existing: seq<string>)
    ensures |Names(existing)| <= |existing|
  {
    if existing != [] {
      var init := existing[..|existing| - 1];
      DistinctCount(init);
      assert Names(existing) == Names(init) + {existing[|existing| - 1]};
    }
  }

  /** The state of the search before `suffix` is tried: everything tried before is in use. */
  ghost predicate Searching(base: string, existing: seq<string>, suffix: nat, name: string) {
    && suffix >= 2
    && name == (if suffix == 2 then base else Candidate(base, suffix - 1))
    && IsProfileName(name)
    && (suffix > 2 ==> base in existing)
    && (forall k :: 2 <= k < suffix - 1 ==> Candidate(base, k) in existing)
    && Tried(base, suffix - 1) <= Names(existing)
    && (suffix > 2 ==>
          suffix - 3 < |Names(existing)|
          || (suffix - 3 == |Names(existing)| && exists k :: 2 <= k < suffix - 1 && Candidate(base, k) == base))
  }

  lemma SearchStep(base: string, existing: seq<string>, suffix: nat, name: string)
    requires Searching(base, existing, suffix, name) && name in existing && |existing| < MAX_ARRAY
    requires forall i :: 0 <= i < |base| ==> IsNameChar(base[i])
    ensures suffix - 2 <= |Names(existing)|
    ensures Searching(base, existing, suffix + 1, Candidate(base, suffix))
    ensures |Ending(suffix)| <= MAX_NAME
  {
    hide Candidate, IsProfileName, DecimalValue, AfterLastDash, IsNameChar;
    assert Tried(base, suffix) <= Names(existing);
    TriedFit(base, suffix, existing);
    DistinctCount(existing);
    EndingIsShort(suffix);
    CandidateIsProfileName(base, suffix);
  }

  /** `name` is what the search ends with, after `tries` numbered candidates. */
  ghost predicate IsFound(base: string, existing: seq<string>, name: string, tries: nat) {
    && name !in existing
    && (tries == 0 <==> base !in existing)
    && name == (if tries == 0 then base else Candidate(base, tries + 1))
    && forall k :: 2 <= k <= tries ==> Candidate(base, k) in existing
  }

  lemma FoundIsUnique(base: string, existing: seq<string>, name: string, tries: nat, other: string, otherTries: nat)
    requires IsFound(base, existing, name, tries) && IsFound(base, existing, other, otherTries)
    ensures name == other && tries == otherTries
  {
    hide Candidate;
  }

  lemma {:induction false} TriedHas(base: string, suffix: nat, k: nat)
    requires 2 <= k < suffix
    ensures Candidate(base, k) in Tried(base, suffix)
  {
    if k < suffix - 1 {
      TriedHas(base, suffix - 1, k);
    }
  }

  lemma {:induction false} TriedInUse(base: string, suffix: nat, existing: seq<string>)
    requires forall k :: 2 <= k < suffix ==> Candidate(base, k) in existing
    ensures Tried(base, suffix) <= Names(existing)
  {
    hide Candidate;
    if suffix > 2 {
      TriedInUse(base, suffix - 1, existing);
    }
  }

  lemma SameSize(a: set<string>, b: set<string>)
    requires a <= b && |a| == |b|
    ensures a == b
  {
    if a != b {
      var x :| x in b && x !in a;
      SubsetSize(a, b - {x});
    }
  }

  /**
   * A search makes at most one candidate more than there are names in use, and it does so exactly when
   * those names are the candidates from 2 on, the base name being one of them.
   */
  lemma ExtraTryIff(base: string, existing: seq<string>, name: string, tries: nat)
    requires IsFound(base, existing, name, tries)
    ensures var n := |Names(existing)|;
            && tries <= n + 1
            && (tries == n + 1 <==> base in existing && Names(existing) == Tried(base, n + 2))
  {
    hide Candidate, Tried, DecimalValue, AfterLastDash;
    var n := |Names(existing)|;
    if tries >= 1 {
      TriedInUse(base, tries + 1, existing);
      TriedFit(base, tries + 1, existing);
      TriedAre(base, tries + 1);
      if tries == n + 1 {
        SameSize(Tried(base, n + 2), Names(existing));
      } else if Names(existing) == Tried(base, n + 2) {
        TriedHas(base, n + 2, tries + 1);
      }
    }
  }

  /**
   * The name is fresh and valid. `tries` numbered candidates were made, only the last of them free: no more than
   * there are distinct names in use, or one more exactly when these are the first candidates themselves.
   */
  method UniqueImportedProfileName(fileName: string, existing: seq<string>, now: nat) returns (name: string, tries: nat)
    requires now <= MAX_TIME && |existing| < MAX_ARRAY
    ensures IsProfileName(name)
    ensures IsFound(BaseName(fileName, now), existing, name, tries)
    ensures var base := BaseName(fileName, now);
            var n := |Names(existing)|;
            tries <= n + 1 && (tries == n + 1 <==> base in existing && Names(existing) == Tried(base, n + 2))
  {
    hide BaseName, IsProfileName, IsNameChar, Names;
    var baseName := BaseName(fileName, now);
    BaseIsProfileName(fileName, now);
    name := baseName;
    var suffix := 2;
    while name in existing
      invariant Searching(baseName, existing, suffix, name)
      decreases |Names(existing)| + 3 - suffix
    {
      hide Searching;
      SearchStep(baseName, existing, suffix, name);
      var ending := Ending(suffix);
      name := Sliced(baseName, MAX_NAME - |ending|) + ending;
      suffix := suffix + 1;
    }
    tries := suffix - 2;
    ExtraTryIff(baseName, existing, name, tries);
  }

  /** A file whose 80-character name ends in `-import-2`, imported again: one name in use takes two candidates. */
  lemma ImportedAgainTakesTwoTries(stem: string, now: nat)
    requires |stem| == 71 && stem[0] != '-' && forall i :: 0 <= i < |stem| ==> IsNameChar(stem[i])
    ensures var file := stem + "-import-2";
            && BaseName(file, now) == file
            && Candidate(file, 2) == file
            && forall name, tries :: IsFound(BaseName(file, now), [file], name, tries) <==> tries == 2 && name == Candidate(file, 3)
  {
    hide BaseName, Candidate, IsFound, IsPlainName;
    var file := stem + "-import-2";
    EndingTwoIsPlain(stem);
    PlainNameIsKept(file, now);
    BaseCanBeItsOwnCandidate(stem);
    ThirdIsFound(file);
    forall name, tries | IsFound(file, [file], name, tries) ensures tries == 2 && name == Candidate(file, 3) {
      FoundIsUnique(file, [file], name, tries, Candidate(file, 3), 2);
    }
  }

  lemma EndingTwoIsPlain(stem: string)
    requires |stem| == 71 && stem[0] != '-' && forall i :: 0 <= i < |stem| ==> IsNameChar(stem[i])
    ensures IsPlainName(stem + "-import-2")
  {
    assert "-import-2" == ['-', 'i', 'm', 'p', 'o', 'r', 't', '-', '2'];
  }

  lemma BaseCanBeItsOwnCandidate(stem: string)
    requires |stem| == 71
    ensures Candidate(stem + "-import-2", 2) == stem + "-import-2"
  {
    assert Decimal(2) == "2";
    assert Ending(2) == "-import-2";
    assert (stem + "-import-2")[..71] == stem;
  }

  lemma ThirdIsFound(base: string)
    requires Candidate(base, 2) == base
    ensures IsFound(base, [base], Candidate(base, 3), 2)
  {
    hide Candidate, DecimalValue, AfterLastDash;
    CandidateNumber(base, 2);
    CandidateNumber(base, 3);
  }

  /** `resolveImportedProfileName`: replacing keeps the base name, copying makes it fresh. */
  method ResolveImportedProfileName(fileName: string, existing: seq<string>, copy: bool, now: nat) returns (name: string)
    requires now <= MAX_TIME && |existing| < MAX_ARRAY
    ensures IsProfileName(name)
    ensures if copy then name !in existing else name == BaseName(fileName, now)
    ensures copy && BaseName(fileName, now) !in existing ==> name == BaseName(fileName, now)
  {
    var tries: nat;
    if copy {
      name, tries := UniqueImportedProfileName(fileName, existing, now);
    } else {
      name, tries := UniqueImportedProfileName(fileName, [], now);
    }
  }

  // ----- how a file name becomes a base name -----

  /** Letters lose their case, other characters stay. */
  lemma LowerIs(c: char, i: nat)
    ensures i < 26 && c == CAPITALS[i] ==> Lower(c) == SMALL[i]
    ensures c !in CAPITALS ==> Lower(c) == c
  {
    CapitalsAre(c);
    if i < 26 {
      CapitalAt(i);
      SmallAt(i);
    }
  }

  lemma CapitalAt(i: nat)
    requires i < 26
    ensures |CAPITALS| == 26 && CAPITALS[i] as int == 65 + i
  {
  }

  lemma SmallAt(i: nat)
    requires i < 26
    ensures |SMALL| == 26 && SMALL[i] as int == 97 + i
  {
  }

  lemma NameCharsAre(c: char)
    ensures IsNameChar(c) <==> c in ALPHANUMERICS + "-_"
  {
    AlphanumericsAre(c);
    assert "-_" == ['-', '_'];
  }

  ghost predicate NoNameChars(s: string) {
    forall i :: 0 <= i < |s| ==> !IsNameChar(s[i])
  }

  lemma {:induction false} DashedSkips(gap: string, rest: string)
    requires NoNameChars(gap) && (rest == "" || IsNameChar(rest[0]))
    ensures Dashed(gap + rest, true) == Dashed(rest, false)
  {
    if gap == "" {
      assert gap + rest == rest;
    } else {
      assert (gap + rest)[1..] == gap[1..] + rest;
      DashedSkips(gap[1..], rest);
    }
  }

  /** Each run of other characters becomes one dash, and the stretches around it are treated by themselves. */
  lemma {:induction false} DashedRun(before: string, gap: string, rest: string)
    requires before == "" || IsNameChar(before[|before| - 1])
    requires gap != "" && NoNameChars(gap)
    requires rest == "" || IsNameChar(rest[0])
    ensures Dashed(before + gap + rest, false) == Dashed(before, false) + "-" + Dashed(rest, false)
  {
    DashedSkips(gap[1..], rest);
    assert gap + rest == [gap[0]] + (gap[1..] + rest);
    assert (gap + rest)[1..] == gap[1..] + rest;
    assert before + gap + rest == before + (gap + rest);
    DashedConcat(before, gap + rest, false);
    assert Dashed(gap + rest, false) == "-" + Dashed(rest, false);
    if before == "" {
      assert before + (gap + rest) == gap + rest;
    }
  }

  lemma {:induction false} DashedConcat(a: string, b: string, inRun: bool)
    requires a == "" || IsNameChar(a[|a| - 1])
    ensures a != "" ==> Dashed(a + b, inRun) == Dashed(a, inRun) + Dashed(b, false)
    decreases |a|
  {
    if |a| == 1 {
      assert (a + b)[1..] == b && a[1..] == "";
    } else if |a| > 1 {
      assert (a + b)[1..] == a[1..] + b;
      DashedConcat(a[1..], b, !IsNameChar(a[0]));
    }
  }

  ghost predicate AllDashes(s: string) {
    forall i :: 0 <= i < |s| ==> s[i] == '-'
  }

  /** Trimming removes the dashes at both ends, and nothing else. */
  lemma {:induction false} TrimsRemoveDashes(s: string)
    ensures var t := TrimDashesStart(s);
            |t| <= |s| && s[|s| - |t|..] == t && AllDashes(s[..|s| - |t|]) && (t == "" || t[0] != '-')
    decreases |s|
  {
    if s != "" && s[0] == '-' {
      TrimsRemoveDashes(s[1..]);
      var k := |s| - |TrimDashesStart(s)|;
      assert s[..k] == [s[0]] + s[1..][..k - 1];
    }
  }

  lemma {:induction false} TrimEndRemovesDashes(s: string)
    ensures var t := TrimDashesEnd(s);
            |t| <= |s| && s[..|t|] == t && AllDashes(s[|t|..]) && (t == "" || t[|t| - 1] != '-')
    decreases |s|
  {
    if s != "" && s[|s| - 1] == '-' {
      var init := s[..|s| - 1];
      TrimEndRemovesDashes(init);
      assert s[|TrimDashesEnd(s)|..] == init[|TrimDashesEnd(s)|..] + ['-'];
    }
  }

  /** The same letters, whatever their case. */
  ghost predicate Spells(s: string, lower: string) {
    |s| == |lower| && forall i :: 0 <= i < |s| ==> Lower(s[i]) == lower[i]
  }

  lemma SpelledIsStripped(stem: string, ending: string, lower: string)
    requires Spells(ending, lower)
    ensures EndsWithIgnoringCase(stem + ending, lower) && WithoutEnding(stem + ending, lower) == stem
  {
    assert (stem + ending)[..|stem|] == stem;
  }

  lemma PlaymapSpelled(stem: string, ending: string)
    requires Spells(ending, ".playmap")
    ensures !EndsWithIgnoringCase(stem + ending, ".json")
  {
    var s := stem + ending;
    assert s[|s| - 1] == ending[7] && Lower(ending[7]) == ".playmap"[7] == 'p';
    assert Lower(s[|s| - 5 + 4]) != ".json"[4];
  }

  /** Extensions are removed in any case, and the mask marker before either of them. */
  lemma ExtensionsInAnyCase(stem: string, mask: string, extension: string, now: nat)
    requires IsPlainName(stem) && (Spells(extension, ".json") || Spells(extension, ".playmap"))
    requires mask == "" || Spells(mask, ".scrcpy-mask")
    ensures BaseName(stem + mask + extension, now) == stem
  {
    var named := stem + mask;
    assert WithoutExtension(named + extension) == WithoutEnding(named, ".scrcpy-mask") by {
      hide EndsWithIgnoringCase, WithoutEnding, Spells;
      assert |named + extension| > |named| by {
        SpellsLength(extension);
      }
      if Spells(extension, ".json") {
        SpelledIsStripped(named, extension, ".json");
      } else {
        PlaymapSpelled(named, extension);
        SpelledIsStripped(named, extension, ".playmap");
      }
    }
    if mask == "" {
      assert named == stem;
      NoDotNoEnding(stem, ".scrcpy-mask");
      NoEndingKept(stem, ".scrcpy-mask");
    } else {
      SpelledIsStripped(stem, mask, ".scrcpy-mask");
    }
    hide WithoutExtension, Dashed, Spells;
    DashedKeepsNames(stem);
  }

  lemma SpellsLength(extension: string)
    ensures Spells(extension, ".json") || Spells(extension, ".playmap") ==> |extension| > 0
  {
  }

  /** A file name with nothing to keep is called after the clock. */
  lemma EmptyNameUsesClock(fileName: string, now: nat)
    requires forall c :: c in WithoutExtension(fileName) ==> c == '-' || !IsNameChar(c)
    ensures BaseName(fileName, now) == "import-" + Decimal(now)
  {
    var stem := WithoutExtension(fileName);
    OnlyDashes(stem, false);
    var dashed := Dashed(stem, false);
    TrimsRemoveDashes(dashed);
  }

  lemma {:induction false} OnlyDashes(s: string, inRun: bool)
    requires forall c :: c in s ==> c == '-' || !IsNameChar(c)
    ensures AllDashes(Dashed(s, inRun))
    decreases |s|
  {
    if s != "" {
      assert s[0] in s && forall c :: c in s[1..] ==> c in s;
      OnlyDashes(s[1..], true);
      OnlyDashes(s[1..], false);
    }
  }

  /** A long base name is cut to 80 characters. */
  lemma LongNamesAreCut(stem: string, now: nat)
    requires stem != "" && stem[0] != '-' && stem[|stem| - 1] != '-' && forall i :: 0 <= i < |stem| ==> IsNameChar(stem[i])
    ensures BaseName(stem, now) == if |stem| <= 80 then stem else stem[..80]
  {
    hide WithoutExtension;
    ExtensionsAreStripped(stem);
    DashedKeepsNames(stem);
  }

  /** A candidate is the base name, cut as far as needed for 80 characters, and its number. */
  lemma CandidateIs(base: string, suffix: nat)
    requires suffix <= MAX_ARRAY + 1
    ensures var ending := "-import-" + Decimal(suffix);
            |ending| <= 18 && Candidate(base, suffix) == (if |base| + |ending| <= 80 then base else base[..80 - |ending|]) + ending
  {
    EndingIsShort(suffix);
  }

  /** What remains of a name between the dashes at its ends, cut to 80 characters, is the base name. */
  lemma BaseIsBetweenDashes(fileName: string, now: nat) returns (before: string, middle: string, after: string)
    ensures Dashed(WithoutExtension(fileName), false) == before + middle + after
    ensures AllDashes(before) && AllDashes(after)
    ensures middle != "" ==> middle[0] != '-' && middle[|middle| - 1] != '-'
    ensures BaseName(fileName, now) ==
              if middle == "" then "import-" + Decimal(now) else if |middle| <= 80 then middle else middle[..80]
  {
    hide Dashed, WithoutExtension, TrimDashesStart, TrimDashesEnd;
    var dashed := Dashed(WithoutExtension(fileName), false);
    var start := TrimDashesStart(dashed);
    middle := TrimDashesEnd(start);
    TrimsRemoveDashes(dashed);
    TrimEndRemovesDashes(start);
    before, after := dashed[..|dashed| - |start|], start[|middle|..];
    assert start == middle + after;
    assert dashed == before + start;
    if middle != "" {
      assert middle[0] == start[0];
    }
  }
}
