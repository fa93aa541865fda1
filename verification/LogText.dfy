// Normalisation of device log text (crates/devicehub-core/src/device_logs.rs).
module LogText {
  import opened Prelude
  import opened Text

  const MAX_MESSAGE_BYTES: nat := 16 * 1024
  const MAX_METADATA_BYTES: nat := 512

  /** Unicode general category Cc. */
  predicate IsControl(c: char) {
    c < ' ' || '\U{7f}' <= c <= '\U{9f}'
  }

  /** The Unicode White_Space property, which `str::trim` removes. */
  predicate IsWhiteSpace(c: char) {
    || '\U{9}' <= c <= '\U{d}' || c == ' ' || c == '\U{85}' || c == '\U{a0}'
    || c == '\U{1680}' || '\U{2000}' <= c <= '\U{200a}' || c == '\U{2028}' || c == '\U{2029}'
    || c == '\U{202f}' || c == '\U{205f}' || c == '\U{3000}'
  }

  predicate EndsWithSpace(s: string) {
    s != "" && s[|s| - 1] == ' '
  }

  /** Messages keep tabs, metadata does not. */
  predicate Kept(c: char, keepTab: bool) {
    (keepTab && c == '\t') || !IsControl(c)
  }

  /** What one accepted character adds to the text built so far. */
  function Appended(built: string, c: char, keepTab: bool): string {
    if Kept(c, keepTab) then built + [c]
    else if EndsWithSpace(built) then built
    else built + [' ']
  }

  function Scrubbed(text: string, limit: nat, keepTab: bool, built: string): string
    decreases |text|
  {
    if text == "" || Utf8Len(built) + CharBytes(text[0]) > limit then built
    else Scrubbed(text[1..], limit, keepTab, Appended(built, text[0], keepTab))
  }

  function TrimStart(s: string): string {
    if s != "" && IsWhiteSpace(s[0]) then TrimStart(s[1..]) else s
  }

  function TrimEnd(s: string): string {
    if s != "" && IsWhiteSpace(s[|s| - 1]) then TrimEnd(s[..|s| - 1]) else s
  }

  function Sanitized(text: string, limit: nat, keepTab: bool): string {
    TrimEnd(TrimStart(Scrubbed(text, limit, keepTab, "")))
  }

  function SanitizedMessage(message: string): string {
    Sanitized(message, MAX_MESSAGE_BYTES, true)
  }

  /** Metadata that sanitises to nothing is dropped. */
  function SanitizedMetadata(value: Option<string>): Option<string> {
    match value
    case None => None
    case Some(text) =>
      var sanitized := Sanitized(text, MAX_METADATA_BYTES, false);
      if sanitized == "" then None else Some(sanitized)
  }

  method Sanitize(text: string, limit: nat, keepTab: bool) returns (sanitized: string)
    ensures sanitized == Sanitized(text, limit, keepTab)
  {
    var built, rest := "", text;
    while rest != ""
      invariant Scrubbed(text, limit, keepTab, "") == Scrubbed(rest, limit, keepTab, built)
      decreases |rest|
    {
      var c := rest[0];
      if Utf8Len(built) + CharBytes(c) > limit {
        break;
      }
      if Kept(c, keepTab) {
        built := built + [c];
      } else if !EndsWithSpace(built) {
        built := built + [' '];
      }
      rest := rest[1..];
    }
    sanitized := TrimEnd(TrimStart(built));
  }

  // ----- what the sanitiser promises -----

  ghost predicate IsTrimmed(s: string) {
    s == "" || (!IsWhiteSpace(s[0]) && !IsWhiteSpace(s[|s| - 1]))
  }

  ghost predicate IsClean(s: string, limit: nat, keepTab: bool) {
    Utf8Len(s) <= limit && forall i :: 0 <= i < |s| ==> Kept(s[i], keepTab)
  }

  lemma {:induction false} ScrubbedIsClean(text: string, limit: nat, keepTab: bool, built: string)
    requires IsClean(built, limit, keepTab)
    ensures IsClean(Scrubbed(text, limit, keepTab, built), limit, keepTab)
    decreases |text|
  {
    if text != "" && Utf8Len(built) + CharBytes(text[0]) <= limit {
      Utf8LenConcat(built, [text[0]]);
      Utf8LenConcat(built, [' ']);
      ScrubbedIsClean(text[1..], limit, keepTab, Appended(built, text[0], keepTab));
    }
  }

  lemma {:induction false} TrimKeepsClean(s: string, limit: nat, keepTab: bool)
    requires IsClean(s, limit, keepTab)
    ensures IsClean(TrimStart(s), limit, keepTab)
    ensures IsClean(TrimEnd(s), limit, keepTab)
    decreases |s|
  {
    if s != "" {
      var init := s[..|s| - 1];
      assert s == init + [s[|s| - 1]];
      Utf8LenConcat(init, [s[|s| - 1]]);
      TrimKeepsClean(s[1..], limit, keepTab);
      TrimKeepsClean(init, limit, keepTab);
    }
  }

  lemma {:induction false} TrimStartTrims(s: string)
    ensures TrimStart(s) == "" || !IsWhiteSpace(TrimStart(s)[0])
  {
    if s != "" && IsWhiteSpace(s[0]) {
      TrimStartTrims(s[1..]);
    }
  }

  lemma {:induction false} TrimEndTrims(s: string)
    ensures TrimEnd(s) == "" || (!IsWhiteSpace(TrimEnd(s)[|TrimEnd(s)| - 1]) && TrimEnd(s)[0] == s[0])
    decreases |s|
  {
    if s != "" && IsWhiteSpace(s[|s| - 1]) {
      TrimEndTrims(s[..|s| - 1]);
    }
  }

  lemma {:induction false} ScrubbedOfClean(text: string, limit: nat, keepTab: bool, built: string)
    requires IsClean(built + text, limit, keepTab)
    ensures Scrubbed(text, limit, keepTab, built) == built + text
    decreases |text|
  {
    if text == "" {
      assert built + text == built;
    } else {
      assert (built + text)[|built|] == text[0];
      assert built + text == (built + [text[0]]) + text[1..];
      Utf8LenConcat(built + [text[0]], text[1..]);
      Utf8LenConcat(built, [text[0]]);
      ScrubbedOfClean(text[1..], limit, keepTab, built + [text[0]]);
    }
  }

  lemma CleanIsKept(s: string, limit: nat, keepTab: bool)
    requires IsClean(s, limit, keepTab) && IsTrimmed(s)
    ensures Sanitized(s, limit, keepTab) == s
  {
    hide Scrubbed;
    assert "" + s == s;
    ScrubbedOfClean(s, limit, keepTab, "");
  }

  /** Stored text is bounded, free of control characters and trimmed; sanitising it again changes nothing. */
  lemma SanitizedIsCanonical(text: string, limit: nat, keepTab: bool)
    ensures var s := Sanitized(text, limit, keepTab);
            IsClean(s, limit, keepTab) && IsTrimmed(s) && Sanitized(s, limit, keepTab) == s
  {
    hide Scrubbed, TrimStart;
    var scrubbed := Scrubbed(text, limit, keepTab, "");
    ScrubbedIsClean(text, limit, keepTab, "");
    TrimKeepsClean(scrubbed, limit, keepTab);
    TrimKeepsClean(TrimStart(scrubbed), limit, keepTab);
    TrimStartTrims(scrubbed);
    TrimEndTrims(TrimStart(scrubbed));
    CleanIsKept(Sanitized(text, limit, keepTab), limit, keepTab);
  }

  /** Sanitising metadata twice is sanitising it once; clean text is kept as it is. */
  lemma MetadataIsIdempotent(value: Option<string>)
    ensures SanitizedMetadata(SanitizedMetadata(value)) == SanitizedMetadata(value)
    ensures value.Some? && value.value != "" && IsClean(value.value, MAX_METADATA_BYTES, false) && IsTrimmed(value.value) ==>
              SanitizedMetadata(value) == value
  {
    if value.Some? {
      SanitizedIsCanonical(value.value, MAX_METADATA_BYTES, false);
      if IsClean(value.value, MAX_METADATA_BYTES, false) && IsTrimmed(value.value) {
        CleanIsKept(value.value, MAX_METADATA_BYTES, false);
      }
    }
  }

  // ----- what is kept of the text -----

  predicate IsBlank(c: char) {
    IsWhiteSpace(c) || IsControl(c)
  }

  /** How many characters are taken before the limit stops the scan. */
  function TakenCount(text: string, limit: nat, keepTab: bool, built: string): (n: nat)
    ensures n <= |text|
    decreases |text|
  {
    if text == "" || Utf8Len(built) + CharBytes(text[0]) > limit then 0
    else 1 + TakenCount(text[1..], limit, keepTab, Appended(built, text[0], keepTab))
  }

  /** The scan stops at the first character that does not fit after what has been built, and not before. */
  lemma {:induction false} StopsAtLimit(text: string, limit: nat, keepTab: bool, built: string)
    ensures var n := TakenCount(text, limit, keepTab, built);
            && (Utf8Len(built) + Utf8Len(text) <= limit ==> n == |text|)
            && (n < |text| ==> Utf8Len(Scrubbed(text, limit, keepTab, built)) + CharBytes(text[n]) > limit)
    decreases |text|
  {
    if text != "" && Utf8Len(built) + CharBytes(text[0]) <= limit {
      AppendedIsShort(built, text[0], keepTab);
      StopsAtLimit(text[1..], limit, keepTab, Appended(built, text[0], keepTab));
    }
  }

  /** The words of a text: every run of spaces and of characters that are not kept counts as one space. */
  function Words(s: string, keepTab: bool): string {
    if s == "" then ""
    else
      var before := Words(s[..|s| - 1], keepTab);
      var c := s[|s| - 1];
      if Kept(c, keepTab) && c != ' ' then before + [c]
      else if EndsWithSpace(before) then before
      else before + [' ']
  }

  lemma WordsStep(s: string, c: char, keepTab: bool)
    ensures Words(s + [c], keepTab) ==
              var before := Words(s, keepTab);
              if Kept(c, keepTab) && c != ' ' then before + [c] else if EndsWithSpace(before) then before else before + [' ']
  {
    assert (s + [c])[..|s|] == s;
  }

  lemma AppendedIsShort(built: string, c: char, keepTab: bool)
    ensures Utf8Len(Appended(built, c, keepTab)) <= Utf8Len(built) + CharBytes(c)
  {
    hide Utf8Len;
    Utf8LenConcat(built, [c]);
    Utf8LenConcat(built, [' ']);
    OneChar(c);
    OneChar(' ');
  }

  lemma OneChar(c: char)
    ensures Utf8Len([c]) == CharBytes(c)
  {
    assert [c][1..] == "";
  }

  lemma AppendedWords(built: string, c: char, keepTab: bool)
    ensures Words(Appended(built, c, keepTab), keepTab) == Words(built + [c], keepTab)
  {
    WordsStep(built, c, keepTab);
    WordsStep(built, ' ', keepTab);
    if EndsWithSpace(built) {
      var init := built[..|built| - 1];
      assert built == init + [' '];
      WordsStep(init, ' ', keepTab);
    }
  }

  lemma {:induction false} SameWords(a: string, b: string, rest: string, keepTab: bool)
    requires Words(a, keepTab) == Words(b, keepTab)
    ensures Words(a + rest, keepTab) == Words(b + rest, keepTab)
    decreases |rest|
  {
    hide Words;
    if rest == "" {
      assert a + rest == a && b + rest == b;
    } else {
      var init, c := rest[..|rest| - 1], rest[|rest| - 1];
      SameWords(a, b, init, keepTab);
      assert a + rest == (a + init) + [c] && b + rest == (b + init) + [c];
      WordsStep(a + init, c, keepTab);
      WordsStep(b + init, c, keepTab);
    }
  }

  /** Of what is taken, no word is lost, split, joined to another or reordered: control characters separate words. */
  lemma {:induction false} ScrubbedKeepsWords(text: string, limit: nat, keepTab: bool, built: string)
    ensures Words(Scrubbed(text, limit, keepTab, built), keepTab)
         == Words(built + text[..TakenCount(text, limit, keepTab, built)], keepTab)
    decreases |text|
  {
    hide Words, Appended;
    var n := TakenCount(text, limit, keepTab, built);
    if n == 0 {
      assert built + text[..0] == built;
    } else {
      var c, rest := text[0], text[1..];
      var next := Appended(built, c, keepTab);
      AppendedWords(built, c, keepTab);
      assert built + text[..n] == (built + [c]) + rest[..n - 1];
      SameWords(next, built + [c], rest[..n - 1], keepTab);
      ScrubbedKeepsWords(rest, limit, keepTab, next);
    }
  }

  ghost predicate HasDoubleSpace(s: string) {
    exists i :: 0 < i < |s| && s[i - 1] == ' ' && s[i] == ' '
  }

  /** A replaced character adds no second space: only spaces of the text itself can stand side by side. */
  lemma {:induction false} ScrubbedDoublesNoSpace(text: string, limit: nat, keepTab: bool, built: string)
    requires !HasDoubleSpace(built) && ' ' !in text
    ensures !HasDoubleSpace(Scrubbed(text, limit, keepTab, built))
    decreases |text|
  {
    if text != "" {
      assert !HasDoubleSpace(Appended(built, text[0], keepTab));
      ScrubbedDoublesNoSpace(text[1..], limit, keepTab, Appended(built, text[0], keepTab));
    }
  }

  ghost predicate AllWhiteSpace(s: string) {
    forall i :: 0 <= i < |s| ==> IsWhiteSpace(s[i])
  }

  /** Trimming removes white space and nothing else. */
  lemma {:induction false} TrimStartRemovesWhiteSpace(s: string)
    ensures |TrimStart(s)| <= |s| && s[|s| - |TrimStart(s)|..] == TrimStart(s) && AllWhiteSpace(s[..|s| - |TrimStart(s)|])
  {
    if s != "" && IsWhiteSpace(s[0]) {
      TrimStartRemovesWhiteSpace(s[1..]);
      var k := |s| - |TrimStart(s)|;
      assert s[..k] == [s[0]] + s[1..][..k - 1];
    }
  }

  lemma {:induction false} TrimEndRemovesWhiteSpace(s: string)
    ensures |TrimEnd(s)| <= |s| && s[..|TrimEnd(s)|] == TrimEnd(s) && AllWhiteSpace(s[|TrimEnd(s)|..])
    decreases |s|
  {
    if s != "" && IsWhiteSpace(s[|s| - 1]) {
      var init := s[..|s| - 1];
      TrimEndRemovesWhiteSpace(init);
      assert s[|TrimEnd(s)|..] == init[|TrimEnd(s)|..] + [s[|s| - 1]];
    }
  }

  lemma {:induction false} BlankScrubbed(text: string, limit: nat, keepTab: bool, built: string)
    ensures AllWhiteSpace(Scrubbed(text, limit, keepTab, built))
       <==> AllWhiteSpace(built) && forall i :: 0 <= i < TakenCount(text, limit, keepTab, built) ==> IsBlank(text[i])
    decreases |text|
  {
    if TakenCount(text, limit, keepTab, built) > 0 {
      var next := Appended(built, text[0], keepTab);
      BlankScrubbed(text[1..], limit, keepTab, next);
      AppendedBlank(built, text[0], keepTab);
      var n := TakenCount(text, limit, keepTab, built);
      assert forall i :: 0 < i < n ==> text[i] == text[1..][i - 1];
    }
  }

  lemma AppendedBlank(built: string, c: char, keepTab: bool)
    ensures AllWhiteSpace(Appended(built, c, keepTab)) <==> AllWhiteSpace(built) && IsBlank(c)
  {
    var next := Appended(built, c, keepTab);
    assert built <= next;
    assert AllWhiteSpace(next) ==> forall i :: 0 <= i < |built| ==> built[i] == next[i];
    if Kept(c, keepTab) {
      assert next[|built|] == c;
    }
  }

  /** Nothing is left of a text exactly when what is taken of it is white space and control characters. */
  lemma SanitizedIsEmptyIff(text: string, limit: nat, keepTab: bool)
    ensures Sanitized(text, limit, keepTab) == ""
       <==> forall i :: 0 <= i < TakenCount(text, limit, keepTab, "") ==> IsBlank(text[i])
  {
    hide Scrubbed, TakenCount, TrimStart, TrimEnd;
    var scrubbed := Scrubbed(text, limit, keepTab, "");
    var start := TrimStart(scrubbed);
    BlankScrubbed(text, limit, keepTab, "");
    TrimStartRemovesWhiteSpace(scrubbed);
    TrimEndRemovesWhiteSpace(start);
    TrimStartTrims(scrubbed);
    TrimEndTrims(start);
    if start == "" {
      assert scrubbed[..|scrubbed|] == scrubbed;
    } else {
      assert scrubbed[|scrubbed| - |start|] == start[0];
    }
  }

  /** `stored` is what was taken of `text`, word for word, up to white space at its ends. */
  ghost predicate IsTextOf(stored: string, text: string, limit: nat, keepTab: bool) {
    exists before: string, after: string {:trigger AllWhiteSpace(before), AllWhiteSpace(after)} ::
      AllWhiteSpace(before) && AllWhiteSpace(after)
      && Words(before + stored + after, keepTab) == Words(text[..TakenCount(text, limit, keepTab, "")], keepTab)
  }

  lemma SanitizedKeepsWords(text: string, limit: nat, keepTab: bool)
    ensures IsTextOf(Sanitized(text, limit, keepTab), text, limit, keepTab)
  {
    hide Scrubbed, TakenCount, TrimStart, TrimEnd, Words, AllWhiteSpace;
    var scrubbed := Scrubbed(text, limit, keepTab, "");
    var start := TrimStart(scrubbed);
    var stored := TrimEnd(start);
    ScrubbedKeepsWords(text, limit, keepTab, "");
    TrimStartRemovesWhiteSpace(scrubbed);
    TrimEndRemovesWhiteSpace(start);
    var before, after := scrubbed[..|scrubbed| - |start|], start[|stored|..];
    assert before + stored + after == scrubbed;
    assert "" + text[..TakenCount(text, limit, keepTab, "")] == text[..TakenCount(text, limit, keepTab, "")];
  }

  /** The character classes by code point. */
  lemma CharacterClasses(c: char)
    ensures IsControl(c) <==> c as int < 32 || 127 <= c as int <= 159
    ensures IsWhiteSpace(c) <==>
              c as int in {9, 10, 11, 12, 13, 32, 133, 160, 5760, 8232, 8233, 8239, 8287, 12288} || 8192 <= c as int <= 8202
  {
  }
}
