/** Naming of the generated artifacts: `sanitizeFilename` and the four
    filename templates of the document generators. */
module Filenames {
  import opened Text

  /** The characters a sanitised name may contain: `[A-Za-z0-9_]`. */
  predicate IsNameChar(c: char) {
    IsAsciiAlnum(c) || c == '_'
  }

  /** The ASCII letters and digits of `s`, in order. */
  function AlnumOnly(s: string): (r: string)
    ensures |r| <= |s|
    ensures forall i :: 0 <= i < |r| ==> IsAsciiAlnum(r[i])
  {
    if |s| == 0 then ""
    else if IsAsciiAlnum(s[0]) then [s[0]] + AlnumOnly(s[1..])
    else AlnumOnly(s[1..])
  }

  /** The first step of the sanitiser: every character that is neither an
      ASCII letter or digit nor whitespace is deleted. */
  function StripDisallowed(name: string): (r: string)
    ensures forall i :: 0 <= i < |r| ==> IsAsciiAlnum(r[i]) || IsJsSpace(r[i])
    ensures AlnumOnly(r) == AlnumOnly(name)
  {
    if |name| == 0 then ""
    else if IsAsciiAlnum(name[0]) || IsJsSpace(name[0]) then [name[0]] + StripDisallowed(name[1..])
    else StripDisallowed(name[1..])
  }

  /** No two adjacent underscores. */
  predicate NoDoubleUnderscore(r: string) {
    forall i :: 0 <= i < |r| - 1 ==> !(r[i] == '_' && r[i + 1] == '_')
  }

  /** `s.replace(/\s+/g, '_')`: every maximal run of whitespace becomes one
      underscore, so no whitespace is left and the first character is kept
      unless it is whitespace. */
  function CollapseSpaces(s: string): (r: string)
    ensures NoSpace(r)
    ensures |r| == 0 <==> |s| == 0
    ensures |s| > 0 ==> r[0] == (if IsJsSpace(s[0]) then '_' else s[0])
    decreases |s|
  {
    if |s| == 0 then ""
    else if IsJsSpace(s[0]) then "_" + CollapseSpaces(TrimStart(s[1..]))
    else [s[0]] + CollapseSpaces(s[1..])
  }

  /** On an input without underscores, collapsing never puts two underscores
      side by side. */
  lemma {:induction false} CollapseNoDoubleUnderscore(s: string)
    requires '_' !in s
    ensures NoDoubleUnderscore(CollapseSpaces(s))
    decreases |s|
  {
    if |s| > 0 {
      if IsJsSpace(s[0]) {
        var rest := TrimStart(s[1..]);
        forall i | 0 <= i < |rest| ensures rest[i] != '_' {
          assert rest[i] == s[|s| - |rest| + i];
        }
        CollapseNoDoubleUnderscore(rest);
      } else {
        assert '_' !in s[1..];
        CollapseNoDoubleUnderscore(s[1..]);
      }
    }
  }

  /** Collapsing keeps the letters and digits, in order. */
  lemma {:induction false} CollapseKeepsAlnum(s: string)
    ensures AlnumOnly(CollapseSpaces(s)) == AlnumOnly(s)
    decreases |s|
  {
    if |s| > 0 {
      if IsJsSpace(s[0]) {
        AlnumOnlyTrimStart(s[1..]);
        CollapseKeepsAlnum(TrimStart(s[1..]));
        assert ("_" + CollapseSpaces(TrimStart(s[1..])))[1..] == CollapseSpaces(TrimStart(s[1..]));
      } else {
        CollapseKeepsAlnum(s[1..]);
        assert ([s[0]] + CollapseSpaces(s[1..]))[1..] == CollapseSpaces(s[1..]);
      }
    }
  }

  /** Every character of `s` is an ASCII letter, digit or whitespace. */
  predicate AlnumOrSpaces(s: string) {
    forall i :: 0 <= i < |s| ==> IsAsciiAlnum(s[i]) || IsJsSpace(s[i])
  }

  /** Every character of `r` is in `[A-Za-z0-9_]`. */
  predicate NameChars(r: string) {
    forall i :: 0 <= i < |r| ==> IsNameChar(r[i])
  }

  lemma AlnumOrSpacesSuffix(s: string, k: nat)
    requires AlnumOrSpaces(s) && k <= |s|
    ensures AlnumOrSpaces(s[k..])
  {
    forall i | 0 <= i < |s| - k ensures IsAsciiAlnum(s[k..][i]) || IsJsSpace(s[k..][i]) {
      assert s[k..][i] == s[k + i];
    }
  }

  lemma NameCharsCons(c: char, r: string)
    requires IsNameChar(c) && NameChars(r)
    ensures NameChars([c] + r)
  {
    forall i | 0 < i < |r| + 1 ensures IsNameChar(([c] + r)[i]) {
      assert ([c] + r)[i] == r[i - 1];
    }
  }

  /** Collapsing an input of letters, digits and whitespace leaves only
      `[A-Za-z0-9_]`. */
  lemma {:induction false} CollapseNameChars(s: string)
    requires AlnumOrSpaces(s)
    ensures NameChars(CollapseSpaces(s))
    decreases |s|
  {
    if |s| > 0 {
      AlnumOrSpacesSuffix(s, 1);
      var tail := s[1..];
      if IsJsSpace(s[0]) {
        var rest := TrimStart(tail);
        AlnumOrSpacesSuffix(tail, |tail| - |rest|);
        CollapseNameChars(rest);
        NameCharsCons('_', CollapseSpaces(rest));
      } else {
        CollapseNameChars(tail);
        NameCharsCons(s[0], CollapseSpaces(tail));
      }
    }
  }

  lemma {:induction false} AlnumOnlyTrimStart(s: string)
    ensures AlnumOnly(TrimStart(s)) == AlnumOnly(s)
  {
    if |s| > 0 && IsJsSpace(s[0]) {
      AlnumOnlyTrimStart(s[1..]);
    }
  }

  /** `sanitizeFilename(name)`: strip, collapse, then `trim`.  The result is
      made of `[A-Za-z0-9_]` only, never holds two underscores in a row, and
      keeps every ASCII letter and digit of the name in order; the final
      `trim` never changes anything, since no whitespace is left by then. */
  function Sanitize(name: string): (r: string)
    ensures NameChars(r)
    ensures NoDoubleUnderscore(r)
    ensures AlnumOnly(r) == AlnumOnly(name)
  {
    SanitizeSteps(name);
    Trim(CollapseSpaces(StripDisallowed(name)))
  }

  /** What stripping and collapsing guarantee, and that `trim` then has
      nothing left to remove. */
  lemma SanitizeSteps(name: string)
    ensures NameChars(CollapseSpaces(StripDisallowed(name)))
    ensures NoDoubleUnderscore(CollapseSpaces(StripDisallowed(name)))
    ensures AlnumOnly(CollapseSpaces(StripDisallowed(name))) == AlnumOnly(name)
    ensures Trim(CollapseSpaces(StripDisallowed(name))) == CollapseSpaces(StripDisallowed(name))
  {
    var stripped := StripDisallowed(name);
    CollapseNameChars(stripped);
    CollapseKeepsAlnum(stripped);
    StrippedHasNoUnderscore(name);
    CollapseNoDoubleUnderscore(stripped);
    CollapsedIsTrimmed(stripped);
  }

  lemma StrippedHasNoUnderscore(name: string)
    ensures '_' !in StripDisallowed(name)
  {
    var stripped := StripDisallowed(name);
    forall j | 0 <= j < |stripped| ensures stripped[j] != '_' {
      assert IsAsciiAlnum(stripped[j]) || IsJsSpace(stripped[j]);
    }
  }

  lemma CollapsedIsTrimmed(s: string)
    ensures Trim(CollapseSpaces(s)) == CollapseSpaces(s)
  {
    TrimNoSpaceEnds(CollapseSpaces(s));
  }

  /** The final `trim` is the identity. */
  lemma SanitizeUntrimmed(name: string)
    ensures Sanitize(name) == CollapseSpaces(StripDisallowed(name))
  {
    TrimNoSpaceEnds(CollapseSpaces(StripDisallowed(name)));
  }

  /** Whitespace at either end of the name is not removed by the final
      `trim`: it has already become an underscore ("  Ann " gives "_Ann_"). */
  lemma EdgeSpacesBecomeUnderscores(name: string)
    requires |name| > 0 && IsJsSpace(name[0])
    ensures |Sanitize(name)| > 0 && Sanitize(name)[0] == '_'
  {
    assert StripDisallowed(name)[0] == name[0];
    SanitizeUntrimmed(name);
  }

  /** Stripping works character by character: with `StripOne`, this
      fixes what it does to every name. */
  lemma {:induction false} StripConcat(a: string, b: string)
    ensures StripDisallowed(a + b) == StripDisallowed(a) + StripDisallowed(b)
  {
    if |a| == 0 {
      assert a + b == b;
    } else {
      assert (a + b)[1..] == a[1..] + b;
      StripConcat(a[1..], b);
    }
  }

  /** A character outside `[A-Za-z0-9\s]` has no effect on the name. */
  lemma SanitizeDropsDisallowed(a: string, c: char, b: string)
    requires !IsAsciiAlnum(c) && !IsJsSpace(c)
    ensures Sanitize(a + [c] + b) == Sanitize(a + b)
  {
    SanitizeUntrimmed(a + [c] + b);
    SanitizeUntrimmed(a + b);
    StripConcat(a + [c], b);
    StripConcat(a, [c]);
    StripConcat(a, b);
    assert StripDisallowed([c]) == "";
    assert StripDisallowed(a) + StripDisallowed([c]) == StripDisallowed(a);
    assert StripDisallowed(a + [c] + b) == StripDisallowed(a + b);
  }

  predicate AllAlnum(w: string) {
    forall i :: 0 <= i < |w| ==> IsAsciiAlnum(w[i])
  }

  lemma {:induction false} StripAlnumSpaces(s: string)
    requires AlnumOrSpaces(s)
    ensures StripDisallowed(s) == s
  {
    if |s| > 0 {
      AlnumOrSpacesSuffix(s, 1);
      StripAlnumSpaces(s[1..]);
    }
  }

  lemma {:induction false} CollapseAlnumPrefix(w: string, t: string)
    requires NoSpace(w)
    ensures CollapseSpaces(w + t) == w + CollapseSpaces(t)
  {
    if |w| == 0 {
      assert w + t == t;
    } else {
      assert (w + t)[1..] == w[1..] + t;
      CollapseAlnumPrefix(w[1..], t);
    }
  }

  /** Non-empty words of ASCII letters and digits only. */
  predicate AlnumWords(words: seq<string>) {
    forall k :: 0 <= k < |words| ==> |words[k]| > 0 && AllAlnum(words[k])
  }

  /** A non-empty run of whitespace: spaces, tabs, newlines, NBSP and the rest of `\s`. */
  predicate SpaceRun(w: string) {
    |w| > 0 && AllSpace(w)
  }

  predicate SpaceRuns(seps: seq<string>) {
    forall k :: 0 <= k < |seps| ==> SpaceRun(seps[k])
  }

  /** The words with a separator between each two: `words[0] + seps[0] +
      words[1] + … + words[|seps|]`. */
  function Interleave(words: seq<string>, seps: seq<string>): (r: string)
    requires |words| == |seps| + 1
    ensures |words[0]| > 0 ==> |r| > 0 && r[0] == words[0][0]
  {
    if |seps| == 0 then words[0] else words[0] + seps[0] + Interleave(words[1..], seps[1..])
  }

  /** Stripping keeps a character exactly when it is an ASCII letter, an
      ASCII digit or whitespace. */
  lemma StripOne(c: char)
    ensures StripDisallowed([c]) == (if IsAsciiAlnum(c) || IsJsSpace(c) then [c] else [])
  {
    assert [c][1..] == [];
  }

  lemma {:induction false} TrimStartRun(run: string, b: string)
    requires AllSpace(run) && (b == [] || !IsJsSpace(b[0]))
    ensures TrimStart(run + b) == b
  {
    if |run| > 0 {
      assert (run + b)[1..] == run[1..] + b;
      assert AllSpace(run[1..]) by {
        forall i | 0 <= i < |run| - 1 ensures IsJsSpace(run[1..][i]) {
          assert run[1..][i] == run[i + 1];
        }
      }
      TrimStartRun(run[1..], b);
    } else {
      assert run + b == b;
    }
  }

  /** A whitespace run of any length and kind, before a non-space or the
      end, becomes exactly one underscore. */
  lemma CollapseLeadingRun(run: string, b: string)
    requires SpaceRun(run) && (b == [] || !IsJsSpace(b[0]))
    ensures CollapseSpaces(run + b) == "_" + CollapseSpaces(b)
  {
    assert (run + b)[0] == run[0];
    assert (run + b)[1..] == run[1..] + b;
    assert AllSpace(run[1..]) by {
      forall i | 0 <= i < |run| - 1 ensures IsJsSpace(run[1..][i]) {
        assert run[1..][i] == run[i + 1];
      }
    }
    TrimStartRun(run[1..], b);
  }

  /** The same run after a word: the word stays, the run becomes one
      underscore. */
  lemma CollapseRun(a: string, run: string, b: string)
    requires NoSpace(a) && SpaceRun(run) && (b == [] || !IsJsSpace(b[0]))
    ensures CollapseSpaces(a + run + b) == a + "_" + CollapseSpaces(b)
  {
    CollapseLeadingRun(run, b);
    CollapseAlnumPrefix(a, run + b);
    Regroup(a, run, b, "_", CollapseSpaces(b));
  }

  lemma Regroup(a: string, run: string, b: string, u: string, y: string)
    ensures a + run + b == a + (run + b)
    ensures a + u + y == a + (u + y)
  {
  }

  lemma AlnumNoSpace(w: string)
    requires AllAlnum(w)
    ensures NoSpace(w)
  {
    forall i | 0 <= i < |w| ensures !IsJsSpace(w[i]) {
      assert IsAsciiAlnum(w[i]);
    }
  }

  lemma SeparatedTail(words: seq<string>, seps: seq<string>)
    requires |words| == |seps| + 1 && |seps| >= 1
    requires AlnumWords(words) && SpaceRuns(seps)
    ensures AlnumWords(words[1..]) && SpaceRuns(seps[1..])
  {
    forall k | 0 <= k < |words| - 1 ensures |words[1..][k]| > 0 && AllAlnum(words[1..][k]) {
      assert words[1..][k] == words[k + 1];
    }
    forall k | 0 <= k < |seps| - 1 ensures SpaceRun(seps[1..][k]) {
      assert seps[1..][k] == seps[k + 1];
    }
  }

  /** Each separator between the words becomes one underscore. */
  lemma {:induction false} CollapseSeparatedWords(words: seq<string>, seps: seq<string>)
    requires |words| == |seps| + 1 && AlnumWords(words) && SpaceRuns(seps)
    ensures CollapseSpaces(Interleave(words, seps)) == Join(words, "_")
    decreases |seps|
  {
    var w := words[0];
    AlnumNoSpace(w);
    if |seps| == 0 {
      CollapseAlnumPrefix(w, "");
      assert w + "" == w;
    } else {
      SeparatedTail(words, seps);
      CollapseSeparatedWords(words[1..], seps[1..]);
      var rest := Interleave(words[1..], seps[1..]);
      assert IsAsciiAlnum(words[1][0]);
      assert !IsJsSpace(rest[0]);
      CollapseRun(w, seps[0], rest);
    }
  }

  lemma {:induction false} SeparatedWordsAlnumOrSpaces(words: seq<string>, seps: seq<string>)
    requires |words| == |seps| + 1 && AlnumWords(words) && SpaceRuns(seps)
    ensures AlnumOrSpaces(Interleave(words, seps))
    decreases |seps|
  {
    if |seps| > 0 {
      SeparatedTail(words, seps);
      SeparatedWordsAlnumOrSpaces(words[1..], seps[1..]);
      var w, sep, rest := words[0], seps[0], Interleave(words[1..], seps[1..]);
      forall i | 0 <= i < |w + sep + rest|
        ensures IsAsciiAlnum((w + sep + rest)[i]) || IsJsSpace((w + sep + rest)[i])
      {
        if i < |w| {
          assert (w + sep + rest)[i] == w[i];
        } else if i < |w| + |sep| {
          assert (w + sep + rest)[i] == sep[i - |w|];
        } else {
          assert (w + sep + rest)[i] == rest[i - |w| - |sep|];
        }
      }
    }
  }

  /** Alphanumeric words separated by whitespace runs of any length and
      kind come out joined by single underscores. */
  lemma SanitizeSeparatedWords(words: seq<string>, seps: seq<string>)
    requires |words| == |seps| + 1 && AlnumWords(words) && SpaceRuns(seps)
    ensures Sanitize(Interleave(words, seps)) == Join(words, "_")
  {
    var s := Interleave(words, seps);
    CollapseSeparatedWords(words, seps);
    SeparatedWordsAlnumOrSpaces(words, seps);
    StripAlnumSpaces(s);
    SanitizeUntrimmed(s);
  }

  /** A run of a space, a tab and a space becomes one underscore:
      "Ann \t Lee" gives "Ann_Lee". */
  lemma SanitizeMixedRun(name: string)
    requires name == "Ann \t Lee"
    ensures Sanitize(name) == "Ann_Lee"
  {
    var words, seps := ["Ann", "Lee"], [" \t "];
    MixedRunParts(name, words, seps);
    SanitizeSeparatedWords(words, seps);
  }

  lemma MixedRunParts(name: string, words: seq<string>, seps: seq<string>)
    requires name == "Ann \t Lee" && words == ["Ann", "Lee"] && seps == [" \t "]
    ensures AlnumWords(words) && SpaceRuns(seps)
    ensures Interleave(words, seps) == name && Join(words, "_") == "Ann_Lee"
  {
    assert AllAlnum(words[0]) && AllAlnum(words[1]);
    assert SpaceRun(seps[0]);
    TwoWords(words, seps, "_");
  }

  /** Two words and one separator. */
  lemma TwoWords(words: seq<string>, seps: seq<string>, sep: string)
    requires |words| == 2 && |seps| == 1
    ensures Interleave(words, seps) == words[0] + seps[0] + words[1]
    ensures Join(words, sep) == words[0] + sep + words[1]
  {
    assert words[1..] == [words[1]] && seps[1..] == [];
  }

  /** The example of the naming rule: "Jane O'Brien" becomes "Jane_OBrien". */
  lemma SanitizeExample(name: string)
    requires name == "Jane O'Brien"
    ensures Sanitize(name) == "Jane_OBrien"
  {
    var spaced := "Jane OBrien";
    ApostropheDropped(name, spaced);
    SanitizeTwoWords(spaced);
  }

  lemma ApostropheDropped(name: string, spaced: string)
    requires name == "Jane O'Brien" && spaced == "Jane OBrien"
    ensures Sanitize(name) == Sanitize(spaced)
  {
    var a, b := "Jane O", "Brien";
    assert a + ['\''] + b == name;
    assert a + b == spaced;
    SanitizeDropsDisallowed(a, '\'', b);
  }

  lemma SanitizeTwoWords(name: string)
    requires name == "Jane OBrien"
    ensures Sanitize(name) == "Jane_OBrien"
  {
    var words, seps := ["Jane", "OBrien"], [" "];
    ExampleWords(name, words, seps);
    SanitizeSeparatedWords(words, seps);
  }

  lemma ExampleWords(name: string, words: seq<string>, seps: seq<string>)
    requires name == "Jane OBrien" && words == ["Jane", "OBrien"] && seps == [" "]
    ensures AlnumWords(words) && SpaceRuns(seps)
    ensures Interleave(words, seps) == name && Join(words, "_") == "Jane_OBrien"
  {
    assert AllAlnum(words[0]) && AllAlnum(words[1]);
    assert SpaceRun(seps[0]);
    TwoWords(words, seps, "_");
  }

  datatype Kind = ResumeKind | CoverLetterKind
  datatype Format = Docx | Pdf

  /** The kind label that follows the name: `_Resume` or `_Cover_Letter`. */
  function Label(k: Kind): string {
    match k
    case ResumeKind => "_Resume"
    case CoverLetterKind => "_Cover_Letter"
  }

  function Extension(f: Format): string {
    match f
    case Docx => ".docx"
    case Pdf => ".pdf"
  }

  /** The name a file is named after: the user's full name, or "User"
      when it is missing. */
  function Subject(fullName: string): string {
    if fullName == "" then "User" else fullName
  }

  /** What precedes the extension in a download name: the sanitised
      subject and the kind label.  It never holds a hyphen. */
  function Stem(fullName: string, k: Kind): (r: string)
    ensures '-' !in r
  {
    NoHyphenInStem(fullName, k);
    Sanitize(Subject(fullName)) + Label(k)
  }

  /** The human-facing download name, as the front end assigns it: the
      sanitised subject, the kind label and the extension, for example
      `Jane_OBrien_Resume.docx`. */
  function DisplayName(fullName: string, k: Kind, f: Format): string {
    Stem(fullName, k) + Extension(f)
  }

  lemma SanitizeHasNoHyphen(name: string)
    ensures '-' !in Sanitize(name)
  {
    var r := Sanitize(name);
    forall i | 0 <= i < |r| ensures r[i] != '-' {
      assert IsNameChar(r[i]);
    }
  }

  lemma LabelHasNoHyphen(k: Kind)
    ensures '-' !in Label(k)
  {
    match k
    case ResumeKind =>
      assert Label(k) == "_Resume";
    case CoverLetterKind =>
      assert Label(k) == "_Cover_Letter";
  }

  lemma NoHyphenInStem(fullName: string, k: Kind)
    ensures '-' !in Sanitize(Subject(fullName)) + Label(k)
  {
    SanitizeHasNoHyphen(Subject(fullName));
    LabelHasNoHyphen(k);
  }

  /** The storage name the generators build, with the random UUID token as
      a parameter: the download name with `_` and the token inserted in
      front of the extension, for example `Jane_OBrien_Resume_<token>.docx`. */
  function StorageName(fullName: string, k: Kind, f: Format, token: string): (r: string)
    ensures var d := DisplayName(fullName, k, f);
      var e := Extension(f);
      |d| >= |e| && r == d[..|d| - |e|] + "_" + token + e
  {
    var d := DisplayName(fullName, k, f);
    var stem := Stem(fullName, k);
    assert d[..|d| - |Extension(f)|] == stem;
    stem + "_" + token + Extension(f)
  }
}
