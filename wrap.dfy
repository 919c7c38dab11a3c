/** The greedy word wrapper inside both PDF `drawText` closures: newlines
    become spaces, the text is split on single spaces, and words are added to
    the current line until the measured width of the line with the next word
    and a trailing space exceeds the maximum; a word is never split. */
module Wrap {
  import opened Text

  /** Glyph metrics: the width of a string at a font size, bold or regular
      (`widthOfTextAtSize` of the chosen font). */
  type Metrics = (string, nat, bool) -> int

  /** The measuring context of one `drawText` call. */
  datatype Measure = Measure(width: Metrics, size: nat, bold: bool, maxWidth: int)

  /** The negation of `testWidth > maxWidth`. */
  predicate Fits(m: Measure, s: string) {
    m.width(s, m.size, m.bold) <= m.maxWidth
  }

  /** The accumulated `line` after the words of `g` were added: each word
      followed by one space. */
  function Raw(g: seq<string>): (r: string)
    ensures |g| > 0 ==> |r| > 0
  {
    if |g| == 0 then "" else Raw(g[..|g| - 1]) + g[|g| - 1] + " "
  }

  /** The words of a text: newlines become spaces, then the text is split
      at every single space (so runs of spaces give empty words). */
  function Words(text: string): (r: seq<string>)
    ensures |r| >= 1
  {
    Split(ReplaceChar(text, '\n', ' '), ' ')
  }

  /** The words of each line, as the loop groups them: the first word always
      opens the first line; every later word joins the current line unless
      the line with it no longer fits, in which case it opens a new one. */
  function Groups(words: seq<string>, m: Measure): (r: seq<seq<string>>)
    requires |words| >= 1
    ensures |r| >= 1
    ensures forall k :: 0 <= k < |r| ==> |r[k]| >= 1
  {
    if |words| == 1 then [words]
    else
      var gs := Groups(words[..|words| - 1], m);
      var w := words[|words| - 1];
      var last := gs[|gs| - 1];
      if !Fits(m, Raw(last) + w + " ") then gs + [[w]]
      else gs[..|gs| - 1] + [last + [w]]
  }

  /** The words of all lines, in order. */
  function Flatten(gs: seq<seq<string>>): seq<string> {
    if |gs| == 0 then [] else Flatten(gs[..|gs| - 1]) + gs[|gs| - 1]
  }

  /** One trimmed line for each group. */
  function LinesOf(gs: seq<seq<string>>): (r: seq<string>)
    ensures |r| == |gs|
  {
    if |gs| == 0 then [] else LinesOf(gs[..|gs| - 1]) + [Trim(Raw(gs[|gs| - 1]))]
  }

  /** The lines `drawText` draws for `text`. */
  function WrapText(text: string, m: Measure): (r: seq<string>)
    ensures |r| >= 1
  {
    LinesOf(Groups(Words(text), m))
  }

  /** Every word of a line after its first was accepted because the line
      with it still fitted. */
  ghost predicate GroupFits(m: Measure, g: seq<string>) {
    forall n :: 2 <= n <= |g| ==> Fits(m, Raw(g[..n]))
  }

  /** Line `k` of `gs` is non-empty, as full as the greedy rule allows, and
      ends only because the line with the next word would not fit. */
  ghost predicate LineIsGreedy(m: Measure, gs: seq<seq<string>>, k: int)
    requires 0 <= k < |gs|
  {
    && |gs[k]| >= 1
    && GroupFits(m, gs[k])
    && (k + 1 < |gs| ==> |gs[k + 1]| >= 1 && !Fits(m, Raw(gs[k]) + gs[k + 1][0] + " "))
  }

  /** The independent description of a greedy wrap: the lines hold all
      words in order, and each of them is greedy. */
  ghost predicate GreedyPartition(words: seq<string>, gs: seq<seq<string>>, m: Measure) {
    && |gs| >= 1
    && Flatten(gs) == words
    && (forall k :: 0 <= k < |gs| ==> LineIsGreedy(m, gs, k))
  }

  lemma RawSnoc(g: seq<string>, w: string)
    ensures Raw(g + [w]) == Raw(g) + w + " "
  {
    assert (g + [w])[..|g|] == g;
  }

  lemma RawSingle(w: string)
    ensures Raw([w]) == w + " "
  {
    assert [w][..0] == [];
  }

  lemma FlattenSnoc(gs: seq<seq<string>>, g: seq<string>)
    ensures Flatten(gs + [g]) == Flatten(gs) + g
  {
    assert (gs + [g])[..|gs|] == gs;
  }

  lemma GroupFitsSnoc(m: Measure, g: seq<string>, w: string)
    requires GroupFits(m, g) && (|g| == 0 || Fits(m, Raw(g) + w + " "))
    ensures GroupFits(m, g + [w])
  {
    var h := g + [w];
    forall n | 2 <= n <= |h| ensures Fits(m, Raw(h[..n])) {
      if n == |h| {
        assert h[..n] == h;
        RawSnoc(g, w);
      } else {
        assert h[..n] == g[..n];
      }
    }
  }

  lemma GroupFitsInit(m: Measure, g: seq<string>, w: string)
    requires GroupFits(m, g + [w])
    ensures GroupFits(m, g) && (|g| == 0 || Fits(m, Raw(g) + w + " "))
  {
    var h := g + [w];
    forall n | 2 <= n <= |g| ensures Fits(m, Raw(g[..n])) {
      assert h[..n] == g[..n];
    }
    if |g| > 0 {
      assert h[..|h|] == h;
      RawSnoc(g, w);
    }
  }

  /** Opening a new line for `w` keeps the partition greedy. */
  lemma GreedyNewLine(words: seq<string>, gs: seq<seq<string>>, w: string, m: Measure)
    requires GreedyPartition(words, gs, m)
    requires !Fits(m, Raw(gs[|gs| - 1]) + w + " ")
    ensures GreedyPartition(words + [w], gs + [[w]], m)
  {
    var r := gs + [[w]];
    FlattenSnoc(gs, [w]);
    forall k | 0 <= k < |r| ensures LineIsGreedy(m, r, k) {
      if k < |gs| {
        assert LineIsGreedy(m, gs, k);
        assert r[k] == gs[k];
        if k + 1 < |gs| {
          assert r[k + 1] == gs[k + 1];
        }
      }
    }
  }

  /** Adding `w` to the last line keeps the partition greedy. */
  lemma GreedySameLine(words: seq<string>, gs: seq<seq<string>>, w: string, m: Measure)
    requires GreedyPartition(words, gs, m)
    requires Fits(m, Raw(gs[|gs| - 1]) + w + " ")
    ensures GreedyPartition(words + [w], gs[..|gs| - 1] + [gs[|gs| - 1] + [w]], m)
  {
    var j := |gs| - 1;
    var last := gs[j];
    var r := gs[..j] + [last + [w]];
    assert gs == gs[..j] + [last];
    FlattenSnoc(gs[..j], last);
    FlattenSnoc(gs[..j], last + [w]);
    assert LineIsGreedy(m, gs, j);
    GroupFitsSnoc(m, last, w);
    forall k | 0 <= k < |r| ensures LineIsGreedy(m, r, k) {
      if k < j {
        assert LineIsGreedy(m, gs, k);
        assert r[k] == gs[k];
        if k + 1 < j {
          assert r[k + 1] == gs[k + 1];
        } else {
          assert r[k + 1][0] == gs[k + 1][0];
        }
      }
    }
  }

  /** No word is split, dropped, duplicated or reordered, and every line is
      as full as the greedy rule allows: the loop builds a greedy
      partition of the words. */
  lemma {:induction false} GroupsAreGreedy(words: seq<string>, m: Measure)
    requires |words| >= 1
    ensures GreedyPartition(words, Groups(words, m), m)
  {
    if |words| == 1 {
      assert Flatten([words]) == Flatten([]) + words;
      assert LineIsGreedy(m, [words], 0);
    } else {
      var init := words[..|words| - 1];
      var w := words[|words| - 1];
      GroupsAreGreedy(init, m);
      var gs := Groups(init, m);
      assert init + [w] == words;
      if !Fits(m, Raw(gs[|gs| - 1]) + w + " ") {
        GreedyNewLine(init, gs, w, m);
      } else {
        GreedySameLine(init, gs, w, m);
      }
    }
  }

  /** In a greedy partition of two or more words whose last line is the
      last word alone, the other lines are a greedy partition of the other
      words, and the last word did not fit on the line before. */
  lemma GreedyDropLine(words: seq<string>, gs: seq<seq<string>>, m: Measure)
    requires |words| >= 2
    requires GreedyPartition(words, gs, m)
    requires |gs[|gs| - 1]| == 1
    ensures |gs| >= 2 && gs[|gs| - 1] == [words[|words| - 1]]
    ensures GreedyPartition(words[..|words| - 1], gs[..|gs| - 1], m)
    ensures !Fits(m, Raw(gs[|gs| - 2]) + words[|words| - 1] + " ")
  {
    var n := |words|;
    var j := |gs| - 1;
    var front := gs[..j];
    assert gs == front + [gs[j]];
    FlattenSnoc(front, gs[j]);
    assert words[..n - 1] + [words[n - 1]] == words;
    assert Flatten(front) == words[..n - 1];
    assert |Flatten(front)| >= 1;
    forall k | 0 <= k < j ensures LineIsGreedy(m, front, k) {
      assert LineIsGreedy(m, gs, k);
      assert front[k] == gs[k];
      if k + 1 < j {
        assert front[k + 1] == gs[k + 1];
      }
    }
    assert LineIsGreedy(m, gs, j - 1);
  }

  /** In a greedy partition whose last line has two or more words, removing
      the last word from it leaves a greedy partition of the other words,
      and that word fitted on the shortened line. */
  lemma GreedyDropWord(words: seq<string>, gs: seq<seq<string>>, m: Measure)
    requires |words| >= 2
    requires GreedyPartition(words, gs, m)
    requires |gs[|gs| - 1]| >= 2
    ensures var j := |gs| - 1; var shorter := gs[j][..|gs[j]| - 1];
      gs[j] == shorter + [words[|words| - 1]] &&
      GreedyPartition(words[..|words| - 1], gs[..j] + [shorter], m) &&
      Fits(m, Raw(shorter) + words[|words| - 1] + " ")
  {
    var n := |words|;
    var j := |gs| - 1;
    var last := gs[j];
    var w := words[n - 1];
    var shorter := last[..|last| - 1];
    var front := gs[..j] + [shorter];
    assert gs == gs[..j] + [last];
    FlattenSnoc(gs[..j], last);
    assert words[..n - 1] + [w] == words;
    assert last == shorter + [w];
    FlattenSnoc(gs[..j], shorter);
    assert LineIsGreedy(m, gs, j);
    GroupFitsInit(m, shorter, w);
    forall k | 0 <= k < |front| ensures LineIsGreedy(m, front, k) {
      if k < j {
        assert LineIsGreedy(m, gs, k);
        assert front[k] == gs[k];
        if k + 1 < j {
          assert front[k + 1] == gs[k + 1];
        } else {
          assert front[k + 1][0] == last[0];
        }
      }
    }
  }

  /** Only one greedy partition exists: any partition with the greedy
      properties is the one the loop builds. */
  lemma {:induction false} GreedyIsUnique(words: seq<string>, gs: seq<seq<string>>, m: Measure)
    requires |words| >= 1
    requires GreedyPartition(words, gs, m)
    ensures gs == Groups(words, m)
  {
    var n := |words|;
    var j := |gs| - 1;
    if n == 1 {
      GreedySingleWord(words, gs, m);
    } else if (assert LineIsGreedy(m, gs, j); |gs[j]| == 1) {
      GreedyDropLine(words, gs, m);
      GreedyIsUnique(words[..n - 1], gs[..j], m);
      GroupsAfterNewLine(words, gs, m);
    } else {
      GreedyDropWord(words, gs, m);
      var shorter := gs[j][..|gs[j]| - 1];
      GreedyIsUnique(words[..n - 1], gs[..j] + [shorter], m);
      GroupsAfterSameLine(words, gs, shorter, m);
    }
  }

  lemma GroupsAfterNewLine(words: seq<string>, gs: seq<seq<string>>, m: Measure)
    requires |words| >= 2 && |gs| >= 2
    requires gs[..|gs| - 1] == Groups(words[..|words| - 1], m)
    requires gs[|gs| - 1] == [words[|words| - 1]]
    requires !Fits(m, Raw(gs[|gs| - 2]) + words[|words| - 1] + " ")
    ensures gs == Groups(words, m)
  {
    assert gs == gs[..|gs| - 1] + [gs[|gs| - 1]];
  }

  lemma GroupsAfterSameLine(words: seq<string>, gs: seq<seq<string>>, shorter: seq<string>, m: Measure)
    requires |words| >= 2 && |gs| >= 1
    requires gs[..|gs| - 1] + [shorter] == Groups(words[..|words| - 1], m)
    requires gs[|gs| - 1] == shorter + [words[|words| - 1]]
    requires Fits(m, Raw(shorter) + words[|words| - 1] + " ")
    ensures gs == Groups(words, m)
  {
    var j := |gs| - 1;
    assert (gs[..j] + [shorter])[..j] == gs[..j];
    assert gs == gs[..j] + [gs[j]];
  }

  /** A greedy partition of one word is that word on one line. */
  lemma GreedySingleWord(words: seq<string>, gs: seq<seq<string>>, m: Measure)
    requires |words| == 1 && GreedyPartition(words, gs, m)
    ensures gs == [words]
  {
    forall k | 0 <= k < |gs| ensures |gs[k]| >= 1 {
      assert LineIsGreedy(m, gs, k);
    }
    FlattenCount(gs);
    assert |gs| == 1;
    assert gs[..0] == [];
    assert Flatten(gs) == gs[0];
  }

  lemma {:induction false} FlattenCount(gs: seq<seq<string>>)
    requires forall k :: 0 <= k < |gs| ==> |gs[k]| >= 1
    ensures |Flatten(gs)| >= |gs|
  {
    if |gs| > 0 {
      FlattenCount(gs[..|gs| - 1]);
    }
  }

  /** A word with no whitespace in it, as ordinary prose is made of. */
  predicate IsWord(w: string) {
    w != "" && NoSpace(w)
  }

  predicate AllWords(ws: seq<string>) {
    forall i :: 0 <= i < |ws| ==> IsWord(ws[i])
  }

  lemma AllWordsSnoc(g: seq<string>, w: string)
    requires AllWords(g) && IsWord(w)
    ensures AllWords(g + [w])
  {
    var h := g + [w];
    forall i | 0 <= i < |h| ensures IsWord(h[i]) {
      if i < |g| {
        assert h[i] == g[i];
      }
    }
  }

  lemma AllWordsInit(g: seq<string>)
    requires |g| >= 1 && AllWords(g)
    ensures AllWords(g[..|g| - 1]) && IsWord(g[|g| - 1])
  {
    var h := g[..|g| - 1];
    forall i | 0 <= i < |h| ensures IsWord(h[i]) {
      assert h[i] == g[i];
    }
  }

  /** Every line of a wrap of whitespace-free words holds only such words. */
  lemma {:induction false} GroupsOfWords(words: seq<string>, m: Measure)
    requires |words| >= 1 && AllWords(words)
    ensures forall k :: 0 <= k < |Groups(words, m)| ==> AllWords(Groups(words, m)[k])
  {
    if |words| > 1 {
      var init := words[..|words| - 1];
      var w := words[|words| - 1];
      AllWordsInit(words);
      GroupsOfWords(init, m);
      var gs := Groups(init, m);
      var j := |gs| - 1;
      assert AllWords(gs[j]);
      if !Fits(m, Raw(gs[j]) + w + " ") {
        GroupsWordsNewLine(gs, w, Groups(words, m));
      } else {
        AllWordsSnoc(gs[j], w);
        GroupsWordsSameLine(gs, w, Groups(words, m));
      }
    }
  }

  lemma GroupsWordsNewLine(gs: seq<seq<string>>, w: string, r: seq<seq<string>>)
    requires IsWord(w) && forall k :: 0 <= k < |gs| ==> AllWords(gs[k])
    requires r == gs + [[w]]
    ensures forall k :: 0 <= k < |r| ==> AllWords(r[k])
  {
    forall k | 0 <= k < |r| ensures AllWords(r[k]) {
      if k < |gs| {
        assert r[k] == gs[k];
      } else {
        assert r[k] == [w];
      }
    }
  }

  lemma GroupsWordsSameLine(gs: seq<seq<string>>, w: string, r: seq<seq<string>>)
    requires |gs| >= 1 && forall k :: 0 <= k < |gs| ==> AllWords(gs[k])
    requires AllWords(gs[|gs| - 1] + [w])
    requires r == gs[..|gs| - 1] + [gs[|gs| - 1] + [w]]
    ensures forall k :: 0 <= k < |r| ==> AllWords(r[k])
  {
    forall k | 0 <= k < |r| ensures AllWords(r[k]) {
      if k < |gs| - 1 {
        assert r[k] == gs[k];
      }
    }
  }

  lemma {:induction false} RawIsJoin(g: seq<string>)
    requires |g| >= 1
    ensures Raw(g) == Join(g, " ") + " "
  {
    if |g| > 1 {
      RawIsJoin(g[..|g| - 1]);
      JoinSnoc(g[..|g| - 1], g[|g| - 1], " ");
      assert g[..|g| - 1] + [g[|g| - 1]] == g;
    } else {
      RawSingle(g[0]);
      assert [g[0]] == g;
    }
  }

  lemma {:induction false} JoinOfWordsEnds(g: seq<string>)
    requires |g| >= 1 && AllWords(g)
    ensures var s := Join(g, " "); |s| >= 1 && !IsJsSpace(s[0]) && !IsJsSpace(s[|s| - 1])
  {
    assert IsWord(g[0]);
    if |g| > 1 {
      assert AllWords(g[1..]) by {
        forall i | 0 <= i < |g[1..]| ensures IsWord(g[1..][i]) {
          assert g[1..][i] == g[i + 1];
        }
      }
      JoinOfWordsEnds(g[1..]);
    }
  }

  /** A line of whitespace-free words is the words joined by single spaces. */
  lemma TrimRaw(g: seq<string>)
    requires |g| >= 1 && AllWords(g)
    ensures Trim(Raw(g)) == Join(g, " ")
  {
    RawIsJoin(g);
    var s := Join(g, " ");
    JoinOfWordsEnds(g);
    assert TrimStart(s + " ") == s + " ";
    TrimEndSpace(s);
    TrimNoSpaceEnds(s);
  }

  lemma LinesJoinSingle(g: seq<string>)
    requires |g| >= 1 && AllWords(g)
    ensures Join(LinesOf([g]), " ") == Join(Flatten([g]), " ")
  {
    TrimRaw(g);
    assert [g][..0] == [];
    assert LinesOf([g]) == [Join(g, " ")];
    assert Flatten([g]) == g;
  }

  lemma {:induction false} LinesJoin(gs: seq<seq<string>>)
    requires |gs| >= 1
    requires forall k :: 0 <= k < |gs| ==> |gs[k]| >= 1 && AllWords(gs[k])
    ensures Join(LinesOf(gs), " ") == Join(Flatten(gs), " ")
  {
    var j := |gs| - 1;
    var g := gs[j];
    var front := gs[..j];
    if j == 0 {
      assert gs == [g];
      LinesJoinSingle(g);
    } else {
      TrimRaw(g);
      assert gs == front + [g];
      FlattenSnoc(front, g);
      LinesOfSnoc(front, g);
      assert forall k :: 0 <= k < |front| ==> front[k] == gs[k];
      LinesJoin(front);
      FlattenCount(front);
      JoinSnoc(LinesOf(front), Join(g, " "), " ");
      JoinConcat(Flatten(front), g, " ");
    }
  }

  /** Wrapping changes only where the line breaks fall: for a text of
      non-empty words separated by single spaces or newlines, the drawn lines
      joined by spaces give back the text with its newlines as spaces. */
  lemma WrapKeepsText(text: string, m: Measure)
    requires AllWords(Words(text))
    ensures Join(WrapText(text, m), " ") == ReplaceChar(text, '\n', ' ')
  {
    var words := Words(text);
    var gs := Groups(words, m);
    GroupsAreGreedy(words, m);
    GroupsOfWords(words, m);
    forall k | 0 <= k < |gs| ensures |gs[k]| >= 1 && AllWords(gs[k]) {
      assert LineIsGreedy(m, gs, k);
    }
    LinesJoin(gs);
    JoinSplit(ReplaceChar(text, '\n', ' '), ' ');
  }

  /** The measured width never shrinks when text is added at either end. */
  ghost predicate Monotone(m: Measure) {
    forall a: string, b: string ::
      m.width(a, m.size, m.bold) <= m.width(a + b, m.size, m.bold) &&
      m.width(b, m.size, m.bold) <= m.width(a + b, m.size, m.bold)
  }

  lemma MonotoneLeft(m: Measure, a: string, b: string)
    requires Monotone(m)
    ensures m.width(a, m.size, m.bold) <= m.width(a + b, m.size, m.bold)
  {
  }

  lemma MonotoneRight(m: Measure, a: string, b: string)
    requires Monotone(m)
    ensures m.width(b, m.size, m.bold) <= m.width(a + b, m.size, m.bold)
  {
  }

  /** A first word too wide on its own overflows any two-word line. */
  lemma FirstWordOverflows(m: Measure, x: string, y: string)
    requires Monotone(m) && !Fits(m, x + " ")
    ensures !Fits(m, Raw([x, y]))
  {
    RawSingle(x);
    RawSnoc([x], y);
    assert [x] + [y] == [x, y];
    assert (x + " ") + y + " " == (x + " ") + (y + " ");
    MonotoneLeft(m, x + " ", y + " ");
  }

  /** A last word too wide on its own overflows the line it ends. */
  lemma LastWordOverflows(m: Measure, front: seq<string>, w: string)
    requires Monotone(m) && !Fits(m, w + " ")
    ensures !Fits(m, Raw(front + [w]))
  {
    RawSnoc(front, w);
    assert Raw(front) + w + " " == Raw(front) + (w + " ");
    MonotoneRight(m, Raw(front), w + " ");
  }

  /** A line of two or more words holding a word that is too wide on its
      own cannot have fitted. */
  lemma WideWordBreaksGroup(m: Measure, g: seq<string>, i: nat)
    requires Monotone(m) && i < |g| && !Fits(m, g[i] + " ")
    ensures |g| >= 2 ==> !GroupFits(m, g)
  {
    if |g| >= 2 {
      if i == 0 {
        assert !Fits(m, Raw(g[..2])) by {
          assert g[..2] == [g[0], g[1]];
          FirstWordOverflows(m, g[0], g[1]);
        }
      } else {
        assert !Fits(m, Raw(g[..i + 1])) by {
          assert g[..i + 1] == g[..i] + [g[i]];
          LastWordOverflows(m, g[..i], g[i]);
        }
      }
    }
  }

  /** With a monotone metric, a word too wide for a line on its own gets a
      line to itself (and overflows it): it is neither added to the line
      before it nor followed by the next word. */
  lemma OverwideWordStandsAlone(words: seq<string>, m: Measure)
    requires |words| >= 1 && Monotone(m)
    ensures forall k, i ::
      (0 <= k < |Groups(words, m)| && 0 <= i < |Groups(words, m)[k]| && !Fits(m, Groups(words, m)[k][i] + " ")) ==>
        Groups(words, m)[k] == [Groups(words, m)[k][i]]
  {
    var gs := Groups(words, m);
    GroupsAreGreedy(words, m);
    forall k, i | 0 <= k < |gs| && 0 <= i < |gs[k]| && !Fits(m, gs[k][i] + " ")
      ensures gs[k] == [gs[k][i]]
    {
      assert LineIsGreedy(m, gs, k);
      WideWordBreaksGroup(m, gs[k], i);
    }
  }

  /** With a monotone metric, words whose whole line fits stay on one line. */
  lemma {:induction false} FittingWordsStayTogether(words: seq<string>, m: Measure)
    requires |words| >= 1 && Monotone(m) && Fits(m, Raw(words))
    ensures Groups(words, m) == [words]
  {
    if |words| > 1 {
      var init := words[..|words| - 1];
      var w := words[|words| - 1];
      assert init + [w] == words;
      RawSnoc(init, w);
      assert Raw(words) == Raw(init) + (w + " ");
      FittingWordsStayTogether(init, m);
    }
  }

  /** Hence a short text of whitespace-free words is drawn as one line. */
  lemma ShortTextIsOneLine(text: string, m: Measure)
    requires Monotone(m) && AllWords(Words(text))
    requires Fits(m, ReplaceChar(text, '\n', ' ') + " ")
    ensures WrapText(text, m) == [ReplaceChar(text, '\n', ' ')]
  {
    var words := Words(text);
    RawIsJoin(words);
    JoinSplit(ReplaceChar(text, '\n', ' '), ' ');
    FittingWordsStayTogether(words, m);
    TrimRaw(words);
    assert LinesOf([words]) == LinesOf([]) + [Trim(Raw(words))];
  }

  /** An empty text still produces one, empty, line. */
  lemma WrapEmpty(m: Measure)
    ensures WrapText("", m) == [""]
  {
    assert Words("") == [""];
    RawSingle("");
    assert Trim(" ") == "";
  }

  /** How the groups of the first `i + 1` words follow from those of the
      first `i`. */
  lemma GroupsNext(words: seq<string>, i: nat, m: Measure)
    requires 1 <= i < |words|
    ensures var gs := Groups(words[..i], m); var w := words[i];
      Groups(words[..i + 1], m) ==
        if !Fits(m, Raw(gs[|gs| - 1]) + w + " ") then gs + [[w]]
        else gs[..|gs| - 1] + [gs[|gs| - 1] + [w]]
  {
    assert words[..i + 1][..i] == words[..i];
  }

  lemma LinesOfSnoc(gs: seq<seq<string>>, g: seq<string>)
    ensures LinesOf(gs + [g]) == LinesOf(gs) + [Trim(Raw(g))]
  {
    assert (gs + [g])[..|gs|] == gs;
  }

  /** The state of the wrapping loop after `i` words: no line yet before
      the first word; afterwards `line` is the last group so far and `lines`
      the trimmed earlier ones. */
  ghost predicate WrapState(words: seq<string>, i: nat, m: Measure, line: string, lines: seq<string>)
    requires i <= |words|
  {
    if i == 0 then line == "" && lines == []
    else
      var gs := Groups(words[..i], m);
      line == Raw(gs[|gs| - 1]) && lines == LinesOf(gs[..|gs| - 1])
  }

  /** One turn of the loop keeps `WrapState`: when the word does not fit
      on a non-empty line, the line is pushed and the word starts the next. */
  lemma WrapBreak(words: seq<string>, i: nat, m: Measure, line: string, lines: seq<string>)
    requires i < |words| && WrapState(words, i, m, line, lines)
    requires !Fits(m, line + words[i] + " ") && line != ""
    ensures WrapState(words, i + 1, m, words[i] + " ", lines + [Trim(line)])
  {
    var w := words[i];
    RawSingle(w);
    var gs := Groups(words[..i], m);
    GroupsNext(words, i, m);
    assert gs == gs[..|gs| - 1] + [gs[|gs| - 1]];
    LinesOfSnoc(gs[..|gs| - 1], gs[|gs| - 1]);
    assert (gs + [[w]])[..|gs|] == gs;
  }

  /** Otherwise the word is appended to the line. */
  lemma WrapJoin(words: seq<string>, i: nat, m: Measure, line: string, lines: seq<string>)
    requires i < |words| && WrapState(words, i, m, line, lines)
    requires Fits(m, line + words[i] + " ") || line == ""
    ensures WrapState(words, i + 1, m, line + words[i] + " ", lines)
  {
    var w := words[i];
    RawSingle(w);
    if i == 0 {
      assert words[..1] == [w];
    } else {
      var gs := Groups(words[..i], m);
      GroupsNext(words, i, m);
      assert gs == gs[..|gs| - 1] + [gs[|gs| - 1]];
      RawSnoc(gs[|gs| - 1], w);
      assert (gs[..|gs| - 1] + [gs[|gs| - 1] + [w]])[..|gs| - 1] == gs[..|gs| - 1];
    }
  }

  /** The loop's state as a value: the current line and the lines pushed. */
  datatype WrapAcc = WrapAcc(line: string, lines: seq<string>)

  /** One turn of the loop of `drawText` on word `w`. */
  function StepWrap(a: WrapAcc, w: string, m: Measure): WrapAcc {
    var t := a.line + w + " ";
    if m.width(t, m.size, m.bold) > m.maxWidth && a.line != "" then WrapAcc(w + " ", a.lines + [Trim(a.line)])
    else WrapAcc(t, a.lines)
  }

  /** The loop's state after the given words. */
  function FoldWrap(words: seq<string>, m: Measure): WrapAcc {
    if |words| == 0 then WrapAcc("", [])
    else StepWrap(FoldWrap(words[..|words| - 1], m), words[|words| - 1], m)
  }

  /** After any number of words, the loop's state is the greedy grouping
      of those words. */
  lemma {:induction false} FoldWrapState(words: seq<string>, i: nat, m: Measure)
    requires i <= |words|
    ensures WrapState(words, i, m, FoldWrap(words[..i], m).line, FoldWrap(words[..i], m).lines)
  {
    if i > 0 {
      FoldWrapState(words, i - 1, m);
      var a := FoldWrap(words[..i - 1], m);
      assert words[..i][..i - 1] == words[..i - 1];
      assert words[..i][i - 1] == words[i - 1];
      if m.width(a.line + words[i - 1] + " ", m.size, m.bold) > m.maxWidth && a.line != "" {
        WrapBreak(words, i - 1, m, a.line, a.lines);
      } else {
        WrapJoin(words, i - 1, m, a.line, a.lines);
      }
    }
  }

  /** After the last word, pushing the trimmed current line completes
      `WrapText`. */
  lemma WrapFinish(text: string, m: Measure, line: string, lines: seq<string>)
    requires WrapState(Words(text), |Words(text)|, m, line, lines)
    ensures lines + [Trim(line)] == WrapText(text, m)
  {
    var words := Words(text);
    assert words[..|words|] == words;
    var gs := Groups(words, m);
    assert gs == gs[..|gs| - 1] + [gs[|gs| - 1]];
    LinesOfSnoc(gs[..|gs| - 1], gs[|gs| - 1]);
  }

  lemma FoldWrapNext(words: seq<string>, i: nat, m: Measure)
    requires i < |words|
    ensures FoldWrap(words[..i + 1], m) == StepWrap(FoldWrap(words[..i], m), words[i], m)
  {
    assert words[..i + 1][..i] == words[..i];
  }

  /** After all the words, pushing the current line gives `WrapText`. */
  lemma FoldWrapComplete(text: string, m: Measure)
    ensures FoldWrap(Words(text), m).lines + [Trim(FoldWrap(Words(text), m).line)] == WrapText(text, m)
  {
    var words := Words(text);
    assert words[..|words|] == words;
    FoldWrapState(words, |words|, m);
    WrapFinish(text, m, FoldWrap(words, m).line, FoldWrap(words, m).lines);
  }

  /** The loop of `drawText`, with `word` taken from the text's space-split
      words and `line` the current line; it returns exactly `WrapText`. */
  method WrapLines(text: string, m: Measure) returns (lines: seq<string>)
    ensures lines == WrapText(text, m)
  {
    var words := Words(text);
    var line := "";
    lines := [];
    var i := 0;
    while i < |words|
      invariant 0 <= i <= |words|
      invariant WrapAcc(line, lines) == FoldWrap(words[..i], m)
    {
      FoldWrapNext(words, i, m);
      var word := words[i];
      var testLine := line + word + " ";
      var testWidth := m.width(testLine, m.size, m.bold);
      if testWidth > m.maxWidth && line != "" {
        lines := lines + [Trim(line)];
        line := word + " ";
      } else {
        line := testLine;
      }
      i := i + 1;
    }
    assert words[..i] == words;
    FoldWrapComplete(text, m);
    lines := lines + [Trim(line)];
  }
}
