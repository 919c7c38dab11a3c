/** What the generators produce, above the level of the docx and pdf-lib
    libraries: styled paragraphs for a Word document, and the sequence of
    drawing operations for a PDF. */
module Document {

  /** The colours used: default black, link blue (`0066cc`, rgb(0, 0.4, 0.8))
      and the grey of job locations (`666666`, rgb(0.4, 0.4, 0.4)). */
  datatype Color = Black | LinkBlue | Grey

  /** Horizontal placement: at the margin, centred on the page, or indented
      (the docx `indent` of achievement bullets, the PDF `margin + 10`). */
  datatype Align = Left | Centered | Indented

  /** A docx `TextRun`; `size` is in half-points, as docx counts it. */
  datatype Run = Run(text: string, bold: bool, italics: bool, size: nat, color: Color)

  /** A docx `Paragraph`: its runs and its placement. */
  datatype Paragraph = Paragraph(runs: seq<Run>, align: Align)

  /** A plain run: neither bold nor italic, in black. */
  function Plain(text: string, size: nat): Run {
    Run(text, false, false, size, Black)
  }

  /** The text of a paragraph: its runs' texts, concatenated. */
  function TextOf(p: Paragraph): string {
    RunsText(p.runs)
  }

  function RunsText(runs: seq<Run>): string {
    if |runs| == 0 then "" else runs[0].text + RunsText(runs[1..])
  }

  lemma TextOfOne(a: Run, al: Align)
    ensures TextOf(Paragraph([a], al)) == a.text
  {
    assert [a][1..] == [];
    assert RunsText([a]) == a.text + RunsText([]);
    assert a.text + "" == a.text;
  }

  lemma TextOfTwo(a: Run, b: Run, al: Align)
    ensures TextOf(Paragraph([a, b], al)) == a.text + b.text
  {
    assert [a, b][1..] == [b];
    TextOfOne(b, al);
  }

  /** The texts of a document's paragraphs, in order. */
  function ParagraphTexts(ps: seq<Paragraph>): (r: seq<string>)
    ensures |r| == |ps|
    ensures forall i :: 0 <= i < |ps| ==> r[i] == TextOf(ps[i])
  {
    if |ps| == 0 then [] else [TextOf(ps[0])] + ParagraphTexts(ps[1..])
  }

  lemma ParagraphTextsConcat(a: seq<Paragraph>, b: seq<Paragraph>)
    ensures ParagraphTexts(a + b) == ParagraphTexts(a) + ParagraphTexts(b)
  {
  }

  /** The options a PDF `drawText` call is given; `size` is in points. */
  datatype Style = Style(size: nat, bold: bool, color: Color, align: Align)

  /** One step of a PDF generator: a `drawText`, a `drawSection`, or a
      `y -= dy` adjustment of the vertical position. */
  datatype Op = Text(text: string, style: Style) | Section(title: string) | Skip(dy: nat)

  /** The texts of a plan's `drawText` calls, in order. */
  function OpTexts(ops: seq<Op>): seq<string> {
    if |ops| == 0 then []
    else (if ops[0].Text? then [ops[0].text] else []) + OpTexts(ops[1..])
  }

  lemma {:induction false} OpTextsConcat(a: seq<Op>, b: seq<Op>)
    ensures OpTexts(a + b) == OpTexts(a) + OpTexts(b)
  {
    if |a| > 0 {
      assert (a + b)[1..] == a[1..] + b;
      OpTextsConcat(a[1..], b);
      assert [a[0]] + a[1..] == a;
    } else {
      assert a + b == b;
    }
  }

  lemma OpTextsCons(op: Op, ops: seq<Op>)
    ensures OpTexts([op] + ops) == (if op.Text? then [op.text] else []) + OpTexts(ops)
  {
    assert ([op] + ops)[1..] == ops;
  }

  /** A list item as achievements and certifications are written: a U+2022
      bullet, a space, the item. */
  function Bullet(item: string): string {
    "\U{2022} " + item
  }

  /** The separator of inline lists (array skills, tags): ` • `. */
  const BulletSeparator: string := " \U{2022} "
}
