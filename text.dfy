/** The handful of JavaScript string built-ins the rendering engine relies on:
    the `\s` character class (shared by regular expressions and `trim`),
    `trim`, `split` on one character, `join`, `indexOf`, replacing one
    character by another, `toUpperCase` on ASCII text and `filter(Boolean)`
    on strings.  A string is a `seq<char>`. */
module Text {

  /** JavaScript's `\s`, which is also the set of characters `trim` removes:
      the WhiteSpace and LineTerminator productions of ECMAScript. */
  predicate IsJsSpace(c: char) {
    c == '\t' || c == '\n' || c == '\U{000B}' || c == '\U{000C}' || c == '\r' ||
    c == ' ' || c == '\U{00A0}' || c == '\U{1680}' ||
    ('\U{2000}' <= c <= '\U{200A}') ||
    c == '\U{2028}' || c == '\U{2029}' || c == '\U{202F}' || c == '\U{205F}' ||
    c == '\U{3000}' || c == '\U{FEFF}'
  }

  /** An ASCII letter or digit. */
  predicate IsAsciiAlnum(c: char) {
    ('a' <= c <= 'z') || ('A' <= c <= 'Z') || ('0' <= c <= '9')
  }

  predicate NoSpace(s: string) {
    forall i :: 0 <= i < |s| ==> !IsJsSpace(s[i])
  }

  /** Leading-whitespace removal, the first half of `String.prototype.trim`. */
  function TrimStart(s: string): (r: string)
    ensures |r| <= |s| && r == s[|s| - |r|..]
    ensures r == [] || !IsJsSpace(r[0])
    ensures forall i :: 0 <= i < |s| - |r| ==> IsJsSpace(s[i])
  {
    if |s| > 0 && IsJsSpace(s[0]) then TrimStart(s[1..]) else s
  }

  /** Trailing-whitespace removal, the second half of `trim`. */
  function TrimEnd(s: string): (r: string)
    ensures |r| <= |s| && r == s[..|r|]
    ensures r == [] || !IsJsSpace(r[|r| - 1])
    ensures forall i :: |r| <= i < |s| ==> IsJsSpace(s[i])
  {
    if |s| > 0 && IsJsSpace(s[|s| - 1]) then TrimEnd(s[..|s| - 1]) else s
  }

  /** Every character of `s` is whitespace. */
  predicate AllSpace(s: string) {
    forall i :: 0 <= i < |s| ==> IsJsSpace(s[i])
  }

  /** `r` is a slice of `s` with only whitespace before it and after it. */
  predicate BetweenSpaces(s: string, r: string) {
    exists i :: 0 <= i <= |s| - |r| && r == s[i..i + |r|] && AllSpace(s[..i]) && AllSpace(s[i + |r|..])
  }

  /** `String.prototype.trim`: the whitespace at both ends cut away, so
      that the result starts and ends with a non-space. */
  function Trim(s: string): (r: string)
    ensures r == [] || (!IsJsSpace(r[0]) && !IsJsSpace(r[|r| - 1]))
    ensures |r| <= |s|
  {
    TrimEnd(TrimStart(s))
  }

  /** What `trim` leaves is the part of `s` between its leading and its
      trailing whitespace. */
  lemma TrimBetweenSpaces(s: string)
    ensures BetweenSpaces(s, Trim(s))
  {
    SuffixPrefix(s, TrimStart(s), TrimEnd(TrimStart(s)));
  }

  /** A prefix `r` of a suffix `t` of `s`, with only whitespace before `t`
      and after `r`, is a slice of `s` between whitespace. */
  lemma SuffixPrefix(s: string, t: string, r: string)
    requires |t| <= |s| && t == s[|s| - |t|..]
    requires forall i :: 0 <= i < |s| - |t| ==> IsJsSpace(s[i])
    requires |r| <= |t| && r == t[..|r|]
    requires forall i :: |r| <= i < |t| ==> IsJsSpace(t[i])
    ensures BetweenSpaces(s, r)
  {
    var i := |s| - |t|;
    assert s[i + |r|..] == t[|r|..];
    forall k | 0 <= k < |t| - |r| ensures IsJsSpace(t[|r|..][k]) {
      assert t[|r|..][k] == t[|r| + k];
    }
    forall k | 0 <= k < i ensures IsJsSpace(s[..i][k]) {
      assert s[..i][k] == s[k];
    }
    assert r == s[i..i + |r|] && AllSpace(s[..i]) && AllSpace(s[i + |r|..]);
  }

  lemma TrimNoSpaceEnds(s: string)
    requires s == [] || (!IsJsSpace(s[0]) && !IsJsSpace(s[|s| - 1]))
    ensures Trim(s) == s
  {
  }

  lemma TrimEndSpace(s: string)
    ensures TrimEnd(s + " ") == TrimEnd(s)
  {
    assert (s + " ")[..|s|] == s;
  }

  /** `s.indexOf(c)`: the first position of `c`, or -1. */
  function IndexOf(s: string, c: char): (r: int)
    ensures -1 <= r < |s|
    ensures r == -1 <==> c !in s
    ensures r >= 0 ==> s[r] == c && c !in s[..r]
  {
    if |s| == 0 then -1
    else if s[0] == c then 0
    else
      var k := IndexOf(s[1..], c);
      if k == -1 then -1 else k + 1
  }

  /** `s.split(sep)` for a one-character separator: the maximal pieces
      between separators, never an empty list ("".split(' ') is [""]). */
  function Split(s: string, sep: char): (r: seq<string>)
    ensures |r| >= 1
    ensures forall i :: 0 <= i < |r| ==> sep !in r[i]
  {
    if |s| == 0 then [""]
    else
      var rest := Split(s[1..], sep);
      if s[0] == sep then [""] + rest
      else [[s[0]] + rest[0]] + rest[1..]
  }

  /** The parts with one separator between each two. */
  function Join(parts: seq<string>, sep: string): string {
    if |parts| == 0 then ""
    else if |parts| == 1 then parts[0]
    else parts[0] + sep + Join(parts[1..], sep)
  }

  /** Two parts are joined by one separator. */
  lemma JoinTwo(parts: seq<string>, sep: string)
    requires |parts| == 2
    ensures Join(parts, sep) == parts[0] + sep + parts[1]
  {
    assert parts[1..] == [parts[1]];
  }

  /** Nothing is left exactly when every value is falsy. */
  lemma PresentEmpty(values: seq<string>)
    ensures Present(values) == [] <==> forall i :: 0 <= i < |values| ==> values[i] == ""
  {
    var r := Present(values);
    if r != [] {
      assert r[0] in r;
    }
    forall i | 0 <= i < |values| && values[i] != "" ensures r != [] {
      assert values[i] in values;
    }
  }

  /** A join of non-empty parts is empty exactly when there are no parts. */
  lemma {:induction false} JoinNonEmpty(parts: seq<string>, sep: string)
    requires forall i :: 0 <= i < |parts| ==> parts[i] != ""
    ensures Join(parts, sep) == "" <==> |parts| == 0
  {
    if |parts| > 0 {
      assert parts[0] != "";
    }
  }

  lemma {:induction false} JoinSnoc(parts: seq<string>, w: string, sep: string)
    requires |parts| >= 1
    ensures Join(parts + [w], sep) == Join(parts, sep) + sep + w
  {
    if |parts| == 1 {
      assert parts + [w] == [parts[0], w];
    } else {
      assert (parts + [w])[1..] == parts[1..] + [w];
      JoinSnoc(parts[1..], w, sep);
    }
  }

  lemma {:induction false} JoinConcat(a: seq<string>, b: seq<string>, sep: string)
    requires |a| >= 1 && |b| >= 1
    ensures Join(a + b, sep) == Join(a, sep) + sep + Join(b, sep)
  {
    if |a| == 1 {
      assert (a + b)[1..] == b;
    } else {
      assert (a + b)[1..] == a[1..] + b;
      JoinConcat(a[1..], b, sep);
    }
  }

  /** Joining the pieces of a split with the separator gives back the string. */
  lemma {:induction false} JoinSplit(s: string, sep: char)
    ensures Join(Split(s, sep), [sep]) == s
  {
    if |s| > 0 {
      JoinSplit(s[1..], sep);
      var rest := Split(s[1..], sep);
      if s[0] != sep && |rest| > 1 {
        assert ([[s[0]] + rest[0]] + rest[1..])[1..] == rest[1..];
      }
    }
  }

  /** Splitting a join of separator-free pieces gives back the pieces. */
  lemma {:induction false} SplitJoin(parts: seq<string>, sep: char)
    requires |parts| >= 1
    requires forall i :: 0 <= i < |parts| ==> sep !in parts[i]
    ensures Split(Join(parts, [sep]), sep) == parts
  {
    if |parts| == 1 {
      SplitPlain(parts[0], sep);
    } else {
      SplitJoin(parts[1..], sep);
      SplitAround(parts[0], Join(parts[1..], [sep]), sep);
      assert [parts[0]] + parts[1..] == parts;
    }
  }

  lemma {:induction false} SplitPlain(w: string, sep: char)
    requires sep !in w
    ensures Split(w, sep) == [w]
  {
    if |w| > 0 {
      assert sep !in w[1..] by {
        forall i | 0 <= i < |w[1..]| ensures w[1..][i] != sep {
          assert w[1..][i] == w[i + 1];
        }
      }
      SplitPlain(w[1..], sep);
      assert [w[0]] + w[1..] == w;
    }
  }

  lemma {:induction false} SplitAround(w: string, t: string, sep: char)
    requires sep !in w
    ensures Split(w + [sep] + t, sep) == [w] + Split(t, sep)
  {
    if |w| == 0 {
      assert w + [sep] + t == [sep] + t;
      assert ([sep] + t)[1..] == t;
    } else {
      assert (w + [sep] + t)[1..] == w[1..] + [sep] + t;
      assert sep !in w[1..] by {
        forall i | 0 <= i < |w[1..]| ensures w[1..][i] != sep {
          assert w[1..][i] == w[i + 1];
        }
      }
      SplitAround(w[1..], t, sep);
      assert [w[0]] + w[1..] == w;
    }
  }

  /** Every occurrence of one character replaced by another. */
  function ReplaceChar(s: string, x: char, y: char): (r: string)
    ensures |r| == |s|
    ensures forall i :: 0 <= i < |s| ==> r[i] == (if s[i] == x then y else s[i])
  {
    if |s| == 0 then [] else [if s[0] == x then y else s[0]] + ReplaceChar(s[1..], x, y)
  }

  /** `toUpperCase` on the ASCII letters; the engine applies it only to its
      own fixed section titles, which are ASCII. */
  function UpperChar(c: char): char {
    if 'a' <= c <= 'z' then (c as int - 32) as char else c
  }

  function ToUpper(s: string): (r: string)
    ensures |r| == |s|
    ensures forall i :: 0 <= i < |s| ==> r[i] == UpperChar(s[i])
  {
    if |s| == 0 then [] else [UpperChar(s[0])] + ToUpper(s[1..])
  }

  /** Upper-casing, character by character. */
  lemma UpperOf(s: string, t: string)
    requires |s| == |t| && forall i :: 0 <= i < |s| ==> UpperChar(s[i]) == t[i]
    ensures ToUpper(s) == t
  {
  }

  /** `values.filter(Boolean)` on strings: the non-empty ones, in order
      (`null`, `undefined` and "" are all modelled by ""). */
  function Present(values: seq<string>): (r: seq<string>)
    ensures |r| <= |values|
    ensures forall i :: 0 <= i < |r| ==> r[i] != ""
    ensures forall s :: s in r <==> s in values && s != ""
    ensures (forall i :: 0 <= i < |values| ==> values[i] != "") ==> r == values
  {
    if |values| == 0 then []
    else if values[0] == "" then Present(values[1..])
    else [values[0]] + Present(values[1..])
  }

  lemma PresentCons(values: seq<string>)
    requires |values| > 0
    ensures Present(values) == Opt(values[0]) + Present(values[1..])
  {
  }

  /** One value kept when it is truthy: `[s]`, or nothing when `s` is "". */
  function Opt(s: string): (r: seq<string>)
    ensures |r| <= 1
    ensures r == [] <==> s == ""
    ensures r != [] ==> r[0] == s
  {
    if s == "" then [] else [s]
  }

  /** Filtering a concatenation filters each part and keeps them in
      order; with `PresentOne` this fixes the result of every filter. */
  lemma {:induction false} PresentConcat(a: seq<string>, b: seq<string>)
    ensures Present(a + b) == Present(a) + Present(b)
  {
    if |a| > 0 {
      assert (a + b)[1..] == a[1..] + b;
      PresentConcat(a[1..], b);
    } else {
      assert a + b == b;
    }
  }

  lemma PresentOne(s: string)
    ensures Present([s]) == Opt(s)
  {
  }

  /** Filtering a list of values keeps each truthy one in its place. */
  lemma PresentThree(a: string, b: string, c: string)
    ensures Present([a, b, c]) == Opt(a) + Opt(b) + Opt(c)
  {
    assert [a, b, c] == [a] + [b] + [c];
    PresentConcat([a] + [b], [c]);
    PresentConcat([a], [b]);
    PresentOne(a);
    PresentOne(b);
    PresentOne(c);
  }

  lemma PresentFour(a: string, b: string, c: string, d: string)
    ensures Present([a, b, c, d]) == Opt(a) + Opt(b) + Opt(c) + Opt(d)
  {
    assert [a, b, c, d] == [a, b, c] + [d];
    PresentConcat([a, b, c], [d]);
    PresentThree(a, b, c);
    PresentOne(d);
  }
}
