/** Recovering the download name from a storage name: `getCleanDownloadFilename`
    deletes the first underscore that is followed by a UUID-shaped token (hex
    groups of 8, 4, 4, 4 and 12 digits joined by hyphens, in either letter
    case). */
module DownloadName {
  import opened Filenames

  /** `[a-f0-9]` under the `i` flag. */
  predicate IsHexDigit(c: char) {
    ('0' <= c <= '9') || ('a' <= c <= 'f') || ('A' <= c <= 'F')
  }

  /** Offsets of the four hyphens in an 8-4-4-4-12 token. */
  predicate IsHyphenOffset(j: int) {
    j == 8 || j == 13 || j == 18 || j == 23
  }

  /** A 36-character token of hex groups 8-4-4-4-12 separated by hyphens,
      in either letter case. */
  predicate IsUuidShaped(t: string) {
    |t| == 36 &&
    forall j :: 0 <= j < 36 ==> if IsHyphenOffset(j) then t[j] == '-' else IsHexDigit(t[j])
  }

  /** Length of a match: the underscore and the 36-character token. */
  const MatchLength: nat := 37

  /** The pattern matches at position `i` of `s`. */
  predicate MatchAt(s: string, i: nat) {
    i + MatchLength <= |s| && s[i] == '_' && IsUuidShaped(s[i + 1..i + MatchLength])
  }

  /** The leftmost match at or after `from`, if any. */
  function FindMatch(s: string, from: nat): (r: Option)
    ensures r.Some? ==> from <= r.at && MatchAt(s, r.at) && forall j :: from <= j < r.at ==> !MatchAt(s, j)
    ensures r.None? ==> forall j: nat :: from <= j ==> !MatchAt(s, j)
    decreases |s| - from
  {
    if from + MatchLength > |s| then None
    else if MatchAt(s, from) then Some(from)
    else FindMatch(s, from + 1)
  }

  datatype Option = None | Some(at: nat)

  /** `getCleanDownloadFilename(filename)`: without a match the name comes
      back unchanged; otherwise the leftmost match, and only that one, is
      cut out. */
  function CleanDownloadFilename(s: string): (r: string)
    ensures (forall j: nat :: !MatchAt(s, j)) ==> r == s
    ensures forall i: nat :: MatchAt(s, i) && (forall j :: 0 <= j < i ==> !MatchAt(s, j)) ==>
      r == s[..i] + s[i + MatchLength..]
  {
    match FindMatch(s, 0)
    case None => s
    case Some(i) => s[..i] + s[i + MatchLength..]
  }

  /** Every match has a hyphen nine characters in, so no match starts
      where that character is something else. */
  lemma NoMatchWithoutHyphen(s: string, j: nat)
    requires j + 9 < |s| ==> s[j + 9] != '-'
    ensures !MatchAt(s, j)
  {
    if j + MatchLength <= |s| {
      assert s[j + 1..j + MatchLength][8] == s[j + 9];
    }
  }

  /** A sanitised name has no hyphen, so nothing in it is ever stripped. */
  lemma SanitizedNameUntouched(name: string)
    ensures CleanDownloadFilename(Sanitize(name)) == Sanitize(name)
  {
    var n := Sanitize(name);
    SanitizeHasNoHyphen(name);
    forall j: nat ensures !MatchAt(n, j) {
      if j + 9 < |n| {
        assert n[j + 9] in n;
      }
      NoMatchWithoutHyphen(n, j);
    }
  }

  /** Round trip: stripping the storage name of a generated artifact gives
      exactly the download name the front end shows, e.g.
      `Jane_OBrien_Resume_<uuid>.pdf` becomes `Jane_OBrien_Resume.pdf`,
      whatever the letter case of the token's hex digits. */
  lemma StorageNameStripsToDisplayName(fullName: string, k: Kind, f: Format, token: string)
    requires IsUuidShaped(token)
    ensures CleanDownloadFilename(StorageName(fullName, k, f, token)) == DisplayName(fullName, k, f)
  {
    TokenIsFirstMatch(Stem(fullName, k), token, Extension(f));
  }

  /** In `stem + "_" + token + rest` with a hyphen-free stem, the token is
      the leftmost match. */
  lemma TokenIsFirstMatch(stem: string, token: string, rest: string)
    requires '-' !in stem && IsUuidShaped(token)
    ensures CleanDownloadFilename(stem + "_" + token + rest) == stem + rest
  {
    var s := stem + "_" + token + rest;
    var p := |stem|;
    assert s[p + 1..p + MatchLength] == token;
    assert MatchAt(s, p);
    forall j: nat | j < p ensures !MatchAt(s, j) {
      if j + 9 < p {
        assert s[j + 9] == stem[j + 9];
        assert stem[j + 9] in stem;
      } else if j + 9 > p {
        assert s[j + 9] == token[j + 9 - p - 1];
        assert !IsHyphenOffset(j + 9 - p - 1);
      }
      NoMatchWithoutHyphen(s, j);
    }
    assert s[..p] + s[p + MatchLength..] == stem + rest;
  }
}
