/** The page model of the two PDF generators: a current page and a vertical
    position `y` that `drawText`, `drawSection` and explicit `y -= dy`
    adjustments move down, with a new page whenever a line would start
    below the bottom margin. */
module Pdf {
  import opened Text
  import opened Wrap
  import opened Document

  /** The vertical layout of one generator, in points: lines start at or
      above `top` and not below `bottom`, `lineHeight` apart; words wrap at
      `maxWidth`; `textSize` is the default font size of `drawText`. */
  datatype Geometry = Geometry(bottom: int, top: int, lineHeight: nat, maxWidth: int, textSize: nat)

  /** Height of a US Letter page. */
  const PageHeight: int := 792

  /** Résumé: 50 pt margins, 14 pt lines, 512 pt text width, 10 pt text. */
  const ResumeGeometry: Geometry := Geometry(50, PageHeight - 50, 14, 512, 10)

  /** Cover letter: 72 pt margins, 16 pt lines, 468 pt text width, 11 pt text. */
  const CoverLetterGeometry: Geometry := Geometry(72, PageHeight - 72, 16, 468, 11)

  /** `drawSection`: the space above a title, the position below which the
      title moves to a new page, and the space below it. */
  const SectionSpacing: nat := 20
  const SectionBreak: int := 80
  const AfterTitle: nat := 5

  /** Section titles: 12 pt bold black at the margin. */
  const TitleStyle: Style := Style(12, true, Black, Left)

  predicate Sound(g: Geometry) {
    g.bottom <= g.top && g.lineHeight > 0
  }

  /** The current page (1 for the first) and vertical position. */
  datatype Cursor = Cursor(page: nat, y: int)

  /** One `page.drawText` call: a line of text, where it went, how it looks. */
  datatype Placed = Placed(text: string, page: nat, y: int, style: Style)

  /** The lines a step draws, and the cursor after it. */
  datatype Layout = Layout(placed: seq<Placed>, end: Cursor)

  /** Where the next line goes: a new page when `y` is below the bottom
      margin, otherwise the cursor itself. */
  function Slot(g: Geometry, c: Cursor): (r: Cursor)
    ensures c.y < g.bottom ==> r == Cursor(c.page + 1, g.top)
    ensures c.y >= g.bottom ==> r == c
  {
    if c.y < g.bottom then Cursor(c.page + 1, g.top) else c
  }

  /** The line drawn at cursor `c`: in its slot. */
  function PlaceAt(g: Geometry, c: Cursor, line: string, st: Style): Placed {
    Placed(line, Slot(g, c).page, Slot(g, c).y, st)
  }

  /** The cursor after drawing a line at `c`: a line height below its slot. */
  function NextLine(g: Geometry, c: Cursor): Cursor {
    Cursor(Slot(g, c).page, Slot(g, c).y - g.lineHeight)
  }

  /** The line-drawing loop of `drawText`: each line in its slot, each
      next line a line height lower. */
  function PlaceLines(g: Geometry, c: Cursor, lines: seq<string>, st: Style): (r: Layout)
    ensures |r.placed| == |lines|
    decreases |lines|
  {
    if |lines| == 0 then Layout([], c)
    else
      var rest := PlaceLines(g, NextLine(g, c), lines[1..], st);
      Layout([PlaceAt(g, c, lines[0], st)] + rest.placed, rest.end)
  }

  /** The first part of `drawSection`: move down by the section spacing, and
      to the top of a new page when that is below the section break. */
  function SectionStart(g: Geometry, c: Cursor): Cursor {
    if c.y - SectionSpacing < SectionBreak then Cursor(c.page + 1, g.top)
    else Cursor(c.page, c.y - SectionSpacing)
  }

  /** The measuring context of a `drawText` call in style `st`. */
  function MeasureFor(g: Geometry, metrics: Metrics, st: Style): Measure {
    Measure(metrics, st.size, st.bold, g.maxWidth)
  }

  /** One operation: `drawText` wraps and places the text; `drawSection`
      places the upper-cased title after the section spacing and moves 5 pt
      further down; `Skip` moves down. */
  function RunOp(g: Geometry, metrics: Metrics, c: Cursor, op: Op): Layout {
    match op
    case Text(text, st) => PlaceLines(g, c, WrapText(text, MeasureFor(g, metrics, st)), st)
    case Section(title) =>
      var t := PlaceLines(g, SectionStart(g, c), WrapText(ToUpper(title), MeasureFor(g, metrics, TitleStyle)), TitleStyle);
      Layout(t.placed, Cursor(t.end.page, t.end.y - AfterTitle))
    case Skip(dy) => Layout([], Cursor(c.page, c.y - dy))
  }

  /** `drawSection` is `drawText` of the upper-cased title from the
      section start, followed by a 5 pt step down. */
  lemma SectionOp(g: Geometry, metrics: Metrics, c: Cursor, title: string)
    ensures RunOp(g, metrics, c, Section(title)).placed ==
      RunOp(g, metrics, SectionStart(g, c), Text(ToUpper(title), TitleStyle)).placed
    ensures RunOp(g, metrics, c, Section(title)).end ==
      Cursor(RunOp(g, metrics, SectionStart(g, c), Text(ToUpper(title), TitleStyle)).end.page,
             RunOp(g, metrics, SectionStart(g, c), Text(ToUpper(title), TitleStyle)).end.y - AfterTitle)
  {
  }

  /** A whole plan, operation by operation. */
  function RunPlan(g: Geometry, metrics: Metrics, c: Cursor, ops: seq<Op>): Layout
    decreases |ops|
  {
    if |ops| == 0 then Layout([], c)
    else
      var a := RunOp(g, metrics, c, ops[0]);
      var b := RunPlan(g, metrics, a.end, ops[1..]);
      Layout(a.placed + b.placed, b.end)
  }

  /** Position (`page`, `y`) comes after line `p`: on a later page, or lower
      on the same page by at least a line height. */
  predicate After(g: Geometry, p: Placed, page: nat, y: int) {
    page > p.page || (page == p.page && y <= p.y - g.lineHeight)
  }

  /** The layout invariant, stated from the last line back: the cursor is
      on a page numbered from 1, not above the top margin, and after the last
      line; that line is not below the bottom margin; and the lines before it
      satisfy the invariant with the last line's position as their cursor. */
  ghost predicate Flowing(g: Geometry, placed: seq<Placed>, c: Cursor)
    decreases |placed|
  {
    && 1 <= c.page && c.y <= g.top
    && (|placed| > 0 ==>
         var p := placed[|placed| - 1];
         && g.bottom <= p.y
         && After(g, p, c.page, c.y)
         && Flowing(g, placed[..|placed| - 1], Cursor(p.page, p.y)))
  }

  lemma Associative<T>(a: seq<T>, b: seq<T>, c: seq<T>)
    ensures a + b + c == a + (b + c)
  {
  }

  /** Moving the cursor down, or to a later page's top, keeps the invariant. */
  lemma FlowMove(g: Geometry, placed: seq<Placed>, c: Cursor, d: Cursor)
    requires Flowing(g, placed, c)
    requires (d.page > c.page && d.y <= g.top) || (d.page == c.page && d.y <= c.y)
    ensures Flowing(g, placed, d)
  {
  }

  /** Drawing one line keeps the layout invariant. */
  lemma FlowLine(g: Geometry, placed: seq<Placed>, c: Cursor, line: string, st: Style)
    requires Sound(g) && Flowing(g, placed, c)
    ensures Flowing(g, placed + [PlaceAt(g, c, line, st)], NextLine(g, c))
  {
    var s := Slot(g, c);
    FlowMove(g, placed, c, s);
    assert (placed + [PlaceAt(g, c, line, st)])[..|placed|] == placed;
  }

  lemma {:induction false} FlowLines(g: Geometry, placed: seq<Placed>, c: Cursor, lines: seq<string>, st: Style)
    requires Sound(g) && Flowing(g, placed, c)
    ensures Flowing(g, placed + PlaceLines(g, c, lines, st).placed, PlaceLines(g, c, lines, st).end)
    decreases |lines|
  {
    if |lines| == 0 {
      assert placed + [] == placed;
    } else {
      var p := PlaceAt(g, c, lines[0], st);
      FlowLine(g, placed, c, lines[0], st);
      FlowLines(g, placed + [p], NextLine(g, c), lines[1..], st);
      Associative(placed, [p], PlaceLines(g, NextLine(g, c), lines[1..], st).placed);
    }
  }

  lemma FlowOp(g: Geometry, metrics: Metrics, placed: seq<Placed>, c: Cursor, op: Op)
    requires Sound(g) && Flowing(g, placed, c)
    ensures Flowing(g, placed + RunOp(g, metrics, c, op).placed, RunOp(g, metrics, c, op).end)
  {
    match op
    case Text(text, st) =>
      FlowLines(g, placed, c, WrapText(text, MeasureFor(g, metrics, st)), st);
    case Section(title) =>
      var s := SectionStart(g, c);
      FlowMove(g, placed, c, s);
      var lines := WrapText(ToUpper(title), MeasureFor(g, metrics, TitleStyle));
      FlowLines(g, placed, s, lines, TitleStyle);
      var t := PlaceLines(g, s, lines, TitleStyle);
      FlowMove(g, placed + t.placed, t.end, Cursor(t.end.page, t.end.y - AfterTitle));
    case Skip(dy) =>
      assert placed + [] == placed;
  }

  /** Whatever the plan and the metrics, running it keeps the layout
      invariant. */
  lemma {:induction false} FlowPlan(g: Geometry, metrics: Metrics, placed: seq<Placed>, c: Cursor, ops: seq<Op>)
    requires Sound(g) && Flowing(g, placed, c)
    ensures Flowing(g, placed + RunPlan(g, metrics, c, ops).placed, RunPlan(g, metrics, c, ops).end)
    decreases |ops|
  {
    if |ops| == 0 {
      assert placed + [] == placed;
    } else {
      var a := RunOp(g, metrics, c, ops[0]);
      FlowOp(g, metrics, placed, c, ops[0]);
      FlowPlan(g, metrics, placed + a.placed, a.end, ops[1..]);
      var b := RunPlan(g, metrics, a.end, ops[1..]);
      Associative(placed, a.placed, b.placed);
    }
  }

  /** Line `i` of a flowing layout lies between the margins of a page
      numbered from 1, and the lines before it flow up to it. */
  lemma {:induction false} FlowingLine(g: Geometry, placed: seq<Placed>, c: Cursor, i: nat)
    requires Flowing(g, placed, c) && i < |placed|
    ensures 1 <= placed[i].page && g.bottom <= placed[i].y <= g.top
    ensures Flowing(g, placed[..i], Cursor(placed[i].page, placed[i].y))
    decreases |placed|
  {
    var n := |placed|;
    var p := placed[n - 1];
    if i < n - 1 {
      FlowingLine(g, placed[..n - 1], Cursor(p.page, p.y), i);
      assert placed[..n - 1][..i] == placed[..i];
    }
  }

  /** Every line of a flowing layout is before the cursor: on an earlier
      page, or at least a line height higher on the same page. */
  lemma {:induction false} FlowingBeforeCursor(g: Geometry, placed: seq<Placed>, c: Cursor, i: nat)
    requires Flowing(g, placed, c) && i < |placed|
    ensures After(g, placed[i], c.page, c.y)
    decreases |placed|
  {
    var n := |placed|;
    var p := placed[n - 1];
    if i < n - 1 {
      FlowingBeforeCursor(g, placed[..n - 1], Cursor(p.page, p.y), i);
    }
  }

  /** What the invariant means: every line lies between the margins of a
      page numbered from 1, and of any two lines the later one is on a later
      page or at least a line height lower on the same page, so no two lines
      overlap; no line is on a page after the current one. */
  lemma FlowingMeaning(g: Geometry, placed: seq<Placed>, c: Cursor)
    requires Flowing(g, placed, c)
    ensures forall i :: 0 <= i < |placed| ==>
      1 <= placed[i].page <= c.page && g.bottom <= placed[i].y <= g.top
    ensures forall i, j :: 0 <= i < j < |placed| ==> After(g, placed[i], placed[j].page, placed[j].y)
  {
    forall i | 0 <= i < |placed|
      ensures 1 <= placed[i].page <= c.page && g.bottom <= placed[i].y <= g.top
    {
      FlowingLine(g, placed, c, i);
      FlowingBeforeCursor(g, placed, c, i);
    }
    forall i, j | 0 <= i < j < |placed| ensures After(g, placed[i], placed[j].page, placed[j].y) {
      FlowingLine(g, placed, c, j);
      FlowingBeforeCursor(g, placed[..j], Cursor(placed[j].page, placed[j].y), i);
    }
  }

  /** Text of every drawn line, in drawing order. */
  function Texts(placed: seq<Placed>): (r: seq<string>)
    ensures |r| == |placed|
    ensures forall i :: 0 <= i < |placed| ==> r[i] == placed[i].text
  {
    if |placed| == 0 then [] else [placed[0].text] + Texts(placed[1..])
  }

  /** Placing lines draws exactly those lines, in order, in the given style. */
  lemma {:induction false} PlaceLinesDrawsLines(g: Geometry, c: Cursor, lines: seq<string>, st: Style)
    ensures Texts(PlaceLines(g, c, lines, st).placed) == lines
    ensures forall i :: 0 <= i < |lines| ==> PlaceLines(g, c, lines, st).placed[i].style == st
    decreases |lines|
  {
    if |lines| > 0 {
      PlaceLinesDrawsLines(g, NextLine(g, c), lines[1..], st);
      var l := PlaceLines(g, c, lines, st);
      assert l.placed[1..] == PlaceLines(g, NextLine(g, c), lines[1..], st).placed;
      assert [lines[0]] + lines[1..] == lines;
    }
  }

  /** A line-drawing pass starts a new page at most once per line, and only
      when the line would otherwise start below the bottom margin: its first
      line is on the cursor's page unless the cursor is below the margin. */
  lemma PlaceLinesFirstLine(g: Geometry, c: Cursor, lines: seq<string>, st: Style)
    requires |lines| >= 1
    ensures PlaceLines(g, c, lines, st).placed[0].text == lines[0]
    ensures c.y < g.bottom ==>
      PlaceLines(g, c, lines, st).placed[0].page == c.page + 1 && PlaceLines(g, c, lines, st).placed[0].y == g.top
    ensures c.y >= g.bottom ==>
      PlaceLines(g, c, lines, st).placed[0].page == c.page && PlaceLines(g, c, lines, st).placed[0].y == c.y
  {
  }

  lemma PlaceLinesStep(g: Geometry, c: Cursor, lines: seq<string>, i: nat, st: Style)
    requires i < |lines|
    ensures PlaceLines(g, c, lines[i..], st).placed ==
      [PlaceAt(g, c, lines[i], st)] + PlaceLines(g, NextLine(g, c), lines[i + 1..], st).placed
    ensures PlaceLines(g, c, lines[i..], st).end == PlaceLines(g, NextLine(g, c), lines[i + 1..], st).end
  {
    assert lines[i..][1..] == lines[i + 1..];
  }

  lemma RunPlanStep(g: Geometry, metrics: Metrics, c: Cursor, ops: seq<Op>, i: nat)
    requires i < |ops|
    ensures var a := RunOp(g, metrics, c, ops[i]); var b := RunPlan(g, metrics, a.end, ops[i + 1..]);
      RunPlan(g, metrics, c, ops[i..]) == Layout(a.placed + b.placed, b.end)
  {
    assert ops[i..][1..] == ops[i + 1..];
  }

  /** The lines an operation draws: the wrapped text, or the wrapped
      upper-cased title; none for a skip. */
  function OpLines(g: Geometry, metrics: Metrics, op: Op): seq<string> {
    match op
    case Text(text, st) => WrapText(text, MeasureFor(g, metrics, st))
    case Section(title) => WrapText(ToUpper(title), MeasureFor(g, metrics, TitleStyle))
    case Skip(_) => []
  }

  /** The lines a plan draws, operation after operation. */
  function PlanLines(g: Geometry, metrics: Metrics, ops: seq<Op>): seq<string> {
    if |ops| == 0 then [] else OpLines(g, metrics, ops[0]) + PlanLines(g, metrics, ops[1..])
  }

  lemma TextsConcat(a: seq<Placed>, b: seq<Placed>)
    ensures Texts(a + b) == Texts(a) + Texts(b)
  {
  }

  lemma RunOpDrawsLines(g: Geometry, metrics: Metrics, c: Cursor, op: Op)
    ensures Texts(RunOp(g, metrics, c, op).placed) == OpLines(g, metrics, op)
  {
    match op
    case Text(text, st) =>
      PlaceLinesDrawsLines(g, c, WrapText(text, MeasureFor(g, metrics, st)), st);
    case Section(title) =>
      PlaceLinesDrawsLines(g, SectionStart(g, c), WrapText(ToUpper(title), MeasureFor(g, metrics, TitleStyle)), TitleStyle);
    case Skip(_) =>
  }

  /** Pagination neither drops, adds nor reorders anything: a plan draws
      exactly the wrapped lines of its operations, in order, wherever the
      page breaks fall. */
  lemma {:induction false} RunPlanDrawsLines(g: Geometry, metrics: Metrics, c: Cursor, ops: seq<Op>)
    ensures Texts(RunPlan(g, metrics, c, ops).placed) == PlanLines(g, metrics, ops)
    decreases |ops|
  {
    if |ops| > 0 {
      var a := RunOp(g, metrics, c, ops[0]);
      RunOpDrawsLines(g, metrics, c, ops[0]);
      RunPlanDrawsLines(g, metrics, a.end, ops[1..]);
      TextsConcat(a.placed, RunPlan(g, metrics, a.end, ops[1..]).placed);
    }
  }

  /** A plan drawn on a fresh document, whatever it holds and however wide
      the words are, keeps every line between the margins of a page
      numbered from 1, and of any two lines the later one is on a later
      page or at least a line height lower on the same page. */
  lemma PlanIsWellLaidOut(g: Geometry, metrics: Metrics, ops: seq<Op>)
    requires Sound(g)
    ensures forall i :: 0 <= i < |RunPlan(g, metrics, Cursor(1, g.top), ops).placed| ==>
      1 <= RunPlan(g, metrics, Cursor(1, g.top), ops).placed[i].page &&
      g.bottom <= RunPlan(g, metrics, Cursor(1, g.top), ops).placed[i].y <= g.top
    ensures forall i, j :: 0 <= i < j < |RunPlan(g, metrics, Cursor(1, g.top), ops).placed| ==>
      After(g, RunPlan(g, metrics, Cursor(1, g.top), ops).placed[i],
            RunPlan(g, metrics, Cursor(1, g.top), ops).placed[j].page,
            RunPlan(g, metrics, Cursor(1, g.top), ops).placed[j].y)
  {
    var l := RunPlan(g, metrics, Cursor(1, g.top), ops);
    FlowPlan(g, metrics, [], Cursor(1, g.top), ops);
    assert [] + l.placed == l.placed;
    FlowingMeaning(g, l.placed, l.end);
  }

  /** The mutable state of a PDF generator: the page and `y` the closures
      share, and the lines drawn so far. */
  class PdfCanvas {
    const geometry: Geometry
    const metrics: Metrics
    var page: nat
    var y: int
    var drawn: seq<Placed>

    ghost predicate Valid()
      reads this
    {
      Sound(geometry) && Flowing(geometry, drawn, Cursor(page, y))
    }

    function At(): Cursor
      reads this
    {
      Cursor(page, y)
    }

    /** A new document with its first page, and `y` at the top
        margin. */
    constructor (geometry: Geometry, metrics: Metrics)
      requires Sound(geometry)
      ensures Valid()
      ensures this.geometry == geometry && this.metrics == metrics
      ensures page == 1 && y == geometry.top && drawn == []
    {
      this.geometry := geometry;
      this.metrics := metrics;
      page := 1;
      y := geometry.top;
      drawn := [];
    }

    /** The second loop of `drawText`. */
    method DrawLines(lines: seq<string>, st: Style)
      requires Valid()
      modifies this
      ensures Valid()
      ensures drawn == old(drawn) + PlaceLines(geometry, old(At()), lines, st).placed
      ensures At() == PlaceLines(geometry, old(At()), lines, st).end
    {
      ghost var goal := PlaceLines(geometry, At(), lines, st);
      assert lines[0..] == lines;
      var i := 0;
      while i < |lines|
        invariant 0 <= i <= |lines|
        invariant Valid()
        invariant old(drawn) + goal.placed == drawn + PlaceLines(geometry, At(), lines[i..], st).placed
        invariant goal.end == PlaceLines(geometry, At(), lines[i..], st).end
      {
        ghost var before := drawn;
        ghost var c := At();
        PlaceLinesStep(geometry, c, lines, i, st);
        Associative(before, [PlaceAt(geometry, c, lines[i], st)], PlaceLines(geometry, NextLine(geometry, c), lines[i + 1..], st).placed);
        DrawLine(lines[i], st);
        i := i + 1;
      }
    }

    /** One line of that loop: a new page when `y` is below the bottom
        margin, then the line, then `y` a line height lower. */
    method DrawLine(line: string, st: Style)
      requires Valid()
      modifies this
      ensures Valid()
      ensures drawn == old(drawn) + [PlaceAt(geometry, old(At()), line, st)]
      ensures At() == NextLine(geometry, old(At()))
    {
      FlowLine(geometry, drawn, At(), line, st);
      var p, v := page, y;
      if v < geometry.bottom {
        p := p + 1;
        v := geometry.top;
      }
      drawn, page, y := drawn + [Placed(line, p, v, st)], p, v - geometry.lineHeight;
    }

    /** `drawText`: wrap, then draw the lines. */
    method DrawText(text: string, st: Style)
      requires Valid()
      modifies this
      ensures Valid()
      ensures var l := RunOp(geometry, metrics, old(At()), Text(text, st));
        drawn == old(drawn) + l.placed && At() == l.end
    {
      var lines := WrapLines(text, MeasureFor(geometry, metrics, st));
      DrawLines(lines, st);
    }

    /** `drawSection`: the spacing and page check, the upper-cased title,
        then 5 pt more. */
    method DrawSection(title: string)
      requires Valid()
      modifies this
      ensures Valid()
      ensures var l := RunOp(geometry, metrics, old(At()), Section(title));
        drawn == old(drawn) + l.placed && At() == l.end
    {
      SectionOp(geometry, metrics, At(), title);
      StartSection();
      DrawText(ToUpper(title), TitleStyle);
      Skip(AfterTitle);
    }

    /** The first two statements of `drawSection`: 20 pt down, then a new
        page when that is below 80. */
    method StartSection()
      requires Valid()
      modifies this
      ensures Valid()
      ensures drawn == old(drawn) && At() == SectionStart(geometry, old(At()))
    {
      FlowMove(geometry, drawn, At(), SectionStart(geometry, At()));
      y := y - SectionSpacing;
      if y < SectionBreak {
        page := page + 1;
        y := geometry.top;
      }
    }

    /** Moving down by `dy` points without drawing. */
    method Skip(dy: nat)
      requires Valid()
      modifies this
      ensures Valid()
      ensures drawn == old(drawn) && At() == Cursor(old(page), old(y) - dy)
    {
      y := y - dy;
    }

    /** One operation of a plan. */
    method Perform(op: Op)
      requires Valid()
      modifies this
      ensures Valid()
      ensures var l := RunOp(geometry, metrics, old(At()), op);
        drawn == old(drawn) + l.placed && At() == l.end
    {
      match op
      case Text(text, st) => DrawText(text, st);
      case Section(title) => DrawSection(title);
      case Skip(dy) => Skip(dy);
    }

    /** The generator's sequence of calls, in order. */
    method Render(ops: seq<Op>)
      requires Valid()
      modifies this
      ensures Valid()
      ensures var l := RunPlan(geometry, metrics, old(At()), ops);
        drawn == old(drawn) + l.placed && At() == l.end
    {
      ghost var goal := RunPlan(geometry, metrics, At(), ops);
      assert ops[0..] == ops;
      var i := 0;
      while i < |ops|
        invariant 0 <= i <= |ops|
        invariant Valid()
        invariant old(drawn) + goal.placed == drawn + RunPlan(geometry, metrics, At(), ops[i..]).placed
        invariant goal.end == RunPlan(geometry, metrics, At(), ops[i..]).end
      {
        ghost var before := drawn;
        RunPlanStep(geometry, metrics, At(), ops, i);
        Perform(ops[i]);
        ghost var done := drawn[|before|..];
        assert drawn == before + done;
        Associative(before, done, RunPlan(geometry, metrics, At(), ops[i + 1..]).placed);
        i := i + 1;
      }
    }
  }
}
