/** What `generateCoverLetterDocx` and `generateCoverLetterPdf` put in a
    cover letter: the name, the contact line, the date, the salutation, the
    body paragraphs that are present, the sign-off and the name again. */
module CoverLetterComposer {
  import opened Text
  import opened Content
  import opened Document
  import opened Wrap
  import opened Pdf

  /** The salutation, or "Dear Hiring Manager," when it is missing. */
  function Salutation(cl: CoverLetter): (r: string)
    ensures r != ""
    ensures cl.salutation != "" ==> r == cl.salutation
    ensures cl.salutation == "" ==> r == "Dear Hiring Manager,"
  {
    if cl.salutation != "" then cl.salutation else "Dear Hiring Manager,"
  }

  /** The sign-off, or "Sincerely," when it is missing. */
  function Signoff(cl: CoverLetter): (r: string)
    ensures r != ""
    ensures cl.signoff != "" ==> r == cl.signoff
    ensures cl.signoff == "" ==> r == "Sincerely,"
  {
    if cl.signoff != "" then cl.signoff else "Sincerely,"
  }

  /** The opening, body, company-fit and closing paragraphs, in that
      order, without the missing ones. */
  function BodyParagraphs(cl: CoverLetter): seq<string> {
    Present([cl.opening, cl.body, cl.companyFit, cl.closing])
  }

  /** The body keeps the given paragraphs in their order and drops the
      missing ones, whichever of the four are present. */
  lemma BodyKeepsOrder(cl: CoverLetter)
    ensures BodyParagraphs(cl) == Opt(cl.opening) + Opt(cl.body) + Opt(cl.companyFit) + Opt(cl.closing)
    ensures forall p :: p in BodyParagraphs(cl) <==>
      p != "" && (p == cl.opening || p == cl.body || p == cl.companyFit || p == cl.closing)
  {
    PresentFour(cl.opening, cl.body, cl.companyFit, cl.closing);
  }

  /** What a reader reads, top to bottom, in either format. */
  function LetterLines(cl: CoverLetter, u: User, today: string): seq<string> {
    [u.fullName, ContactLine(u), today, Salutation(cl)] + BodyParagraphs(cl) + [Signoff(cl), u.fullName]
  }

  // ------------------------------------------------------------ Word output

  function BodyDocx(paras: seq<string>): (r: seq<Paragraph>)
    ensures |r| == |paras|
    ensures forall i :: 0 <= i < |paras| ==> r[i] == Paragraph([Plain(paras[i], 22)], Left)
  {
    if |paras| == 0 then [] else [Paragraph([Plain(paras[0], 22)], Left)] + BodyDocx(paras[1..])
  }

  /** The paragraphs of `generateCoverLetterDocx`: the bold 14 pt name, the
      contact line, the date, the salutation, the body, the sign-off and the
      name, all at the left margin; `today` is the formatted current date. */
  function CoverLetterDocx(cl: CoverLetter, u: User, today: string): seq<Paragraph> {
    OpeningDocx(cl, u, today) + BodyDocx(BodyParagraphs(cl)) + ClosingDocx(cl, u)
  }

  function OpeningDocx(cl: CoverLetter, u: User, today: string): seq<Paragraph> {
    [Paragraph([Run(u.fullName, true, false, 28, Black)], Left),
     Paragraph([Plain(ContactLine(u), 20)], Left),
     Paragraph([Plain(today, 22)], Left),
     Paragraph([Plain(Salutation(cl), 22)], Left)]
  }

  function ClosingDocx(cl: CoverLetter, u: User): seq<Paragraph> {
    [Paragraph([Plain(Signoff(cl), 22)], Left), Paragraph([Plain(u.fullName, 22)], Left)]
  }

  lemma {:induction false} BodyDocxTexts(paras: seq<string>)
    ensures ParagraphTexts(BodyDocx(paras)) == paras
  {
    forall i | 0 <= i < |paras| ensures ParagraphTexts(BodyDocx(paras))[i] == paras[i] {
      TextOfOne(Plain(paras[i], 22), Left);
    }
  }

  /** Each run of these paragraphs is its paragraph's whole text. */
  lemma {:induction false} SingleRunTexts(ps: seq<Paragraph>, texts: seq<string>)
    requires |ps| == |texts|
    requires forall i :: 0 <= i < |ps| ==> |ps[i].runs| == 1 && ps[i].runs[0].text == texts[i]
    ensures ParagraphTexts(ps) == texts
  {
    forall i | 0 <= i < |ps| ensures ParagraphTexts(ps)[i] == texts[i] {
      assert ps[i] == Paragraph([ps[i].runs[0]], ps[i].align);
      TextOfOne(ps[i].runs[0], ps[i].align);
    }
  }

  /** The Word letter reads exactly as the letter's lines. */
  lemma CoverLetterDocxLines(cl: CoverLetter, u: User, today: string)
    ensures ParagraphTexts(CoverLetterDocx(cl, u, today)) == LetterLines(cl, u, today)
  {
    var head := OpeningDocx(cl, u, today);
    var tail := ClosingDocx(cl, u);
    var body := BodyDocx(BodyParagraphs(cl));
    SingleRunTexts(head, [u.fullName, ContactLine(u), today, Salutation(cl)]);
    SingleRunTexts(tail, [Signoff(cl), u.fullName]);
    BodyDocxTexts(BodyParagraphs(cl));
    ParagraphTextsConcat(head, body);
    ParagraphTextsConcat(head + body, tail);
  }

  // -------------------------------------------------------------- PDF output

  /** The letter's `drawText` style at a given size: regular black at the
      margin. */
  function LetterStyle(size: nat, bold: bool): Style {
    Style(size, bold, Black, Left)
  }

  /** Each body paragraph at the default 11 pt, then 10 pt of space. */
  function BodyOps(paras: seq<string>): (r: seq<Op>)
    ensures |r| == 2 * |paras|
    ensures forall i :: 0 <= i < |paras| ==>
      r[2 * i] == Text(paras[i], LetterStyle(CoverLetterGeometry.textSize, false)) && r[2 * i + 1] == Skip(10)
  {
    if |paras| == 0 then []
    else [Text(paras[0], LetterStyle(CoverLetterGeometry.textSize, false)), Skip(10)] + BodyOps(paras[1..])
  }

  /** The calls of `generateCoverLetterPdf`, with the spacing between them. */
  function CoverLetterPdf(cl: CoverLetter, u: User, today: string): seq<Op> {
    OpeningPdf(cl, u, today) + BodyOps(BodyParagraphs(cl)) + ClosingPdf(cl, u)
  }

  /** The name in 14 pt bold, the contact line in 10 pt, the date and the
      salutation, with 5, 20, 20 and 10 pt below them. */
  function OpeningPdf(cl: CoverLetter, u: User, today: string): seq<Op> {
    [Text(u.fullName, LetterStyle(14, true)), Skip(5),
     Text(ContactLine(u), LetterStyle(10, false)), Skip(20),
     Text(today, LetterStyle(11, false)), Skip(20),
     Text(Salutation(cl), LetterStyle(11, false)), Skip(10)]
  }

  /** 10 pt more, the sign-off, 5 pt, the name. */
  function ClosingPdf(cl: CoverLetter, u: User): seq<Op> {
    [Skip(10), Text(Signoff(cl), LetterStyle(11, false)), Skip(5), Text(u.fullName, LetterStyle(11, false))]
  }

  lemma OpeningPdfTexts(cl: CoverLetter, u: User, today: string)
    ensures OpTexts(OpeningPdf(cl, u, today)) == [u.fullName, ContactLine(u), today, Salutation(cl)]
  {
    FourPairsTexts(u.fullName, LetterStyle(14, true), 5, ContactLine(u), LetterStyle(10, false), 20,
      today, LetterStyle(11, false), 20, Salutation(cl), LetterStyle(11, false), 10);
  }

  /** Four texts, each followed by a gap, contribute those four texts. */
  lemma FourPairsTexts(a: string, sa: Style, ga: nat, b: string, sb: Style, gb: nat,
                       c: string, sc: Style, gc: nat, d: string, sd: Style, gd: nat)
    ensures OpTexts([Text(a, sa), Skip(ga), Text(b, sb), Skip(gb), Text(c, sc), Skip(gc), Text(d, sd), Skip(gd)])
      == [a, b, c, d]
  {
    var last := [Text(d, sd), Skip(gd)];
    var third := [Text(c, sc), Skip(gc)] + last;
    var second := [Text(b, sb), Skip(gb)] + third;
    assert OpTexts(last) == [d] by {
      PairTexts(d, sd, gd, []);
      assert last + [] == last;
    }
    assert OpTexts(third) == [c, d] by {
      PairTexts(c, sc, gc, last);
    }
    assert OpTexts(second) == [b, c, d] by {
      PairTexts(b, sb, gb, third);
    }
    PairTexts(a, sa, ga, second);
    assert [Text(a, sa), Skip(ga)] + second ==
      [Text(a, sa), Skip(ga), Text(b, sb), Skip(gb), Text(c, sc), Skip(gc), Text(d, sd), Skip(gd)];
  }

  lemma ClosingPdfTexts(cl: CoverLetter, u: User)
    ensures OpTexts(ClosingPdf(cl, u)) == [Signoff(cl), u.fullName]
  {
    var t1 := Text(Signoff(cl), LetterStyle(11, false));
    var t2 := Text(u.fullName, LetterStyle(11, false));
    OpTextsCons(Skip(10), [t1, Skip(5), t2]);
    OpTextsCons(t1, [Skip(5), t2]);
    OpTextsCons(Skip(5), [t2]);
    OpTextsCons(t2, []);
    assert [Skip(10)] + [t1, Skip(5), t2] == ClosingPdf(cl, u);
    assert [t1] + [Skip(5), t2] == [t1, Skip(5), t2];
    assert [Skip(5)] + [t2] == [Skip(5), t2];
    assert [t2] + [] == [t2];
  }

  lemma {:induction false} BodyOpsTexts(paras: seq<string>)
    ensures OpTexts(BodyOps(paras)) == paras
  {
    if |paras| > 0 {
      BodyOpsTexts(paras[1..]);
      PairTexts(paras[0], LetterStyle(CoverLetterGeometry.textSize, false), 10, BodyOps(paras[1..]));
      assert [paras[0]] + paras[1..] == paras;
    }
  }

  /** A text followed by a gap contributes just that text. */
  lemma PairTexts(text: string, st: Style, gap: nat, rest: seq<Op>)
    ensures OpTexts([Text(text, st), Skip(gap)] + rest) == [text] + OpTexts(rest)
  {
    OpTextsCons(Text(text, st), [Skip(gap)] + rest);
    OpTextsCons(Skip(gap), rest);
    assert [Text(text, st), Skip(gap)] + rest == [Text(text, st)] + ([Skip(gap)] + rest);
  }

  /** The PDF letter draws exactly the letter's lines, each wrapped. */
  lemma CoverLetterPdfLines(cl: CoverLetter, u: User, today: string)
    ensures OpTexts(CoverLetterPdf(cl, u, today)) == LetterLines(cl, u, today)
  {
    OpeningPdfTexts(cl, u, today);
    ClosingPdfTexts(cl, u);
    BodyOpsTexts(BodyParagraphs(cl));
    OpTextsConcat(OpeningPdf(cl, u, today), BodyOps(BodyParagraphs(cl)));
    OpTextsConcat(OpeningPdf(cl, u, today) + BodyOps(BodyParagraphs(cl)), ClosingPdf(cl, u));
  }

  /** Both formats of a cover letter carry the same lines in the same order,
      ending with the sign-off and the name. */
  lemma FormatsAgree(cl: CoverLetter, u: User, today: string)
    ensures ParagraphTexts(CoverLetterDocx(cl, u, today)) == OpTexts(CoverLetterPdf(cl, u, today))
    ensures var l := LetterLines(cl, u, today);
      |l| >= 6 && l[|l| - 2] == Signoff(cl) && l[|l| - 1] == u.fullName && l[0] == u.fullName
  {
    CoverLetterDocxLines(cl, u, today);
    CoverLetterPdfLines(cl, u, today);
  }

  /** `generateCoverLetterPdf` itself: a fresh document in the cover-letter
      geometry, with the plan drawn on it. */
  method GenerateCoverLetterPdf(cl: CoverLetter, u: User, today: string, metrics: Metrics) returns (canvas: PdfCanvas)
    ensures fresh(canvas) && canvas.Valid()
    ensures canvas.geometry == CoverLetterGeometry && canvas.metrics == metrics
    ensures canvas.drawn ==
      RunPlan(CoverLetterGeometry, metrics, Cursor(1, CoverLetterGeometry.top), CoverLetterPdf(cl, u, today)).placed
  {
    canvas := new PdfCanvas(CoverLetterGeometry, metrics);
    canvas.Render(CoverLetterPdf(cl, u, today));
  }
}
