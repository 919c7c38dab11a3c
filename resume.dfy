/** What `generateDocx` and `generatePdf` put in a résumé: a header (name,
    contact line, links) and then, each only when its content is present,
    the sections Professional Summary, Skills, Professional Experience,
    Education, Certifications and Other, always in that order. */
module ResumeComposer {
  import opened Text
  import opened Content
  import opened Document
  import opened Wrap
  import opened Pdf

  // ---------------------------------------------------------------- sections

  /** The six optional sections, in their fixed order. */
  datatype SectionKind = SummarySection | SkillsSection | ExperienceSection
                       | EducationSection | CertificationsSection | OtherSection

  function Rank(k: SectionKind): nat {
    match k
    case SummarySection => 0
    case SkillsSection => 1
    case ExperienceSection => 2
    case EducationSection => 3
    case CertificationsSection => 4
    case OtherSection => 5
  }

  /** The heading text in the Word document. */
  function DocxTitle(k: SectionKind): string {
    match k
    case SummarySection => "PROFESSIONAL SUMMARY"
    case SkillsSection => "SKILLS"
    case ExperienceSection => "PROFESSIONAL EXPERIENCE"
    case EducationSection => "EDUCATION"
    case CertificationsSection => "CERTIFICATIONS"
    case OtherSection => "OTHER"
  }

  /** The title passed to `drawSection` in the PDF (which upper-cases it). */
  function PdfTitle(k: SectionKind): string {
    match k
    case SummarySection => "Professional Summary"
    case SkillsSection => "Skills"
    case ExperienceSection => "Professional Experience"
    case EducationSection => "Education"
    case CertificationsSection => "Certifications"
    case OtherSection => "Other"
  }

  /** `drawSection` upper-cases its title, so the PDF shows the same
      section headings as the Word document. */
  lemma SameHeadings(k: SectionKind)
    ensures ToUpper(PdfTitle(k)) == DocxTitle(k)
  {
    match k
    case SummarySection =>
      assert ToUpper("Professional Summary") == "PROFESSIONAL SUMMARY" by {
        UpperOf("Professional Summary", "PROFESSIONAL SUMMARY");
      }
    case SkillsSection =>
      assert ToUpper("Skills") == "SKILLS" by {
        UpperOf("Skills", "SKILLS");
      }
    case ExperienceSection =>
      assert ToUpper("Professional Experience") == "PROFESSIONAL EXPERIENCE" by {
        UpperOf("Professional Experience", "PROFESSIONAL EXPERIENCE");
      }
    case EducationSection =>
      assert ToUpper("Education") == "EDUCATION" by {
        UpperOf("Education", "EDUCATION");
      }
    case CertificationsSection =>
      assert ToUpper("Certifications") == "CERTIFICATIONS" by {
        UpperOf("Certifications", "CERTIFICATIONS");
      }
    case OtherSection =>
      assert ToUpper("Other") == "OTHER" by {
        UpperOf("Other", "OTHER");
      }
  }

  /** All six, in the order both generators emit them. */
  const AllSections: seq<SectionKind> :=
    [SummarySection, SkillsSection, ExperienceSection, EducationSection, CertificationsSection, OtherSection]

  /** Whether a section is emitted: a summary when it is non-empty, skills
      when they are truthy, experience, education and certifications when
      their lists are non-empty, Other when there are tags. */
  predicate IsPresent(k: SectionKind, c: Resume, o: Options) {
    match k
    case SummarySection => c.summary != ""
    case SkillsSection => HasSkills(c.skills)
    case ExperienceSection => |c.experience| > 0
    case EducationSection => |c.education| > 0
    case CertificationsSection => |c.certifications| > 0
    case OtherSection => |o.tags| > 0
  }

  /** The sections of `ks` that are present, in order. */
  function Keep(ks: seq<SectionKind>, c: Resume, o: Options): (r: seq<SectionKind>)
    ensures forall k :: k in r <==> k in ks && IsPresent(k, c, o)
  {
    if |ks| == 0 then []
    else Keep(ks[..|ks| - 1], c, o) + (if IsPresent(ks[|ks| - 1], c, o) then [ks[|ks| - 1]] else [])
  }

  /** The sections a résumé has. */
  function SectionsPresent(c: Resume, o: Options): seq<SectionKind> {
    Keep(AllSections, c, o)
  }

  predicate StrictlyRanked(ks: seq<SectionKind>) {
    forall i, j :: 0 <= i < j < |ks| ==> Rank(ks[i]) < Rank(ks[j])
  }

  lemma {:induction false} KeepRanked(ks: seq<SectionKind>, c: Resume, o: Options)
    requires StrictlyRanked(ks)
    ensures StrictlyRanked(Keep(ks, c, o))
  {
    if |ks| > 0 {
      var front := ks[..|ks| - 1];
      var last := ks[|ks| - 1];
      assert StrictlyRanked(front);
      KeepRanked(front, c, o);
      var kf := Keep(front, c, o);
      forall i | 0 <= i < |kf| ensures Rank(kf[i]) < Rank(last) {
        assert kf[i] in front;
      }
    }
  }

  /** The sections come in the fixed order, each at most once; Other is
      present exactly when there are tags, and then it is the last. */
  lemma SectionsInOrder(c: Resume, o: Options)
    ensures StrictlyRanked(SectionsPresent(c, o))
    ensures OtherSection in SectionsPresent(c, o) <==> |o.tags| > 0
    ensures |o.tags| > 0 ==> SectionsPresent(c, o)[|SectionsPresent(c, o)| - 1] == OtherSection
  {
    assert StrictlyRanked(AllSections);
    KeepRanked(AllSections, c, o);
  }

  function DocxTitles(ks: seq<SectionKind>): (r: seq<string>)
    ensures |r| == |ks|
    ensures forall i :: 0 <= i < |ks| ==> r[i] == DocxTitle(ks[i])
  {
    if |ks| == 0 then [] else DocxTitles(ks[..|ks| - 1]) + [DocxTitle(ks[|ks| - 1])]
  }

  function PdfTitles(ks: seq<SectionKind>): (r: seq<string>)
    ensures |r| == |ks|
    ensures forall i :: 0 <= i < |ks| ==> r[i] == PdfTitle(ks[i])
  {
    if |ks| == 0 then [] else PdfTitles(ks[..|ks| - 1]) + [PdfTitle(ks[|ks| - 1])]
  }

  // ------------------------------------------------------------ Word output

  /** A section heading: one bold 12 pt run (size 24 in half-points). */
  function Heading(title: string): Paragraph {
    Paragraph([Run(title, true, false, 24, Black)], Left)
  }

  predicate IsHeading(p: Paragraph) {
    |p.runs| == 1 && p.runs[0].bold && p.runs[0].size == 24
  }

  /** The heading texts of a document, in order. */
  function Headings(ps: seq<Paragraph>): seq<string> {
    if |ps| == 0 then []
    else (if IsHeading(ps[0]) then [ps[0].runs[0].text] else []) + Headings(ps[1..])
  }

  lemma {:induction false} HeadingsConcat(a: seq<Paragraph>, b: seq<Paragraph>)
    ensures Headings(a + b) == Headings(a) + Headings(b)
  {
    if |a| > 0 {
      assert (a + b)[1..] == a[1..] + b;
      HeadingsConcat(a[1..], b);
    } else {
      assert a + b == b;
    }
  }

  /** Paragraphs none of which is a heading contribute no heading. */
  lemma {:induction false} NoHeadings(ps: seq<Paragraph>)
    requires forall i :: 0 <= i < |ps| ==> ps[i].runs != [] && ps[i].runs[0].size != 24
    ensures Headings(ps) == []
  {
    if |ps| > 0 {
      NoHeadings(ps[1..]);
    }
  }

  /** The centred name, 16 pt bold. */
  function NameBlock(u: User): Paragraph {
    Paragraph([Run(u.fullName, true, false, 32, Black)], Centered)
  }

  /** The centred contact line, always present even when empty. */
  function ContactBlock(u: User): Paragraph {
    Paragraph([Plain(ContactLine(u), 20)], Centered)
  }

  /** The labelled profile links that are present. */
  function DocxLinks(u: User): seq<string> {
    (if u.linkedin != "" then ["LinkedIn: " + u.linkedin] else []) +
    (if u.github != "" then ["GitHub: " + u.github] else [])
  }

  function LinksBlock(u: User): seq<Paragraph> {
    var links := DocxLinks(u);
    if |links| > 0 then [Paragraph([Run(Join(links, " | "), false, false, 18, LinkBlue)], Centered)] else []
  }

  function SummaryDocx(summary: string): seq<Paragraph> {
    if summary != "" then [Heading(DocxTitle(SummarySection)), Paragraph([Plain(summary, 22)], Left)] else []
  }

  /** The lines that are not blank, in order. */
  function NonBlank(lines: seq<string>): (r: seq<string>)
    ensures |r| <= |lines|
    ensures forall i :: 0 <= i < |r| ==> Trim(r[i]) != ""
    ensures forall l :: l in r <==> l in lines && Trim(l) != ""
  {
    if |lines| == 0 then []
    else if Trim(lines[0]) == "" then NonBlank(lines[1..])
    else [lines[0]] + NonBlank(lines[1..])
  }

  /** Dropping blank lines works line by line and keeps the order: with
      `NonBlankOne`, this fixes the result for every list of lines. */
  lemma {:induction false} NonBlankConcat(a: seq<string>, b: seq<string>)
    ensures NonBlank(a + b) == NonBlank(a) + NonBlank(b)
  {
    if |a| > 0 {
      assert (a + b)[1..] == a[1..] + b;
      NonBlankConcat(a[1..], b);
    } else {
      assert a + b == b;
    }
  }

  lemma NonBlankOne(line: string)
    ensures NonBlank([line]) == if Trim(line) == "" then [] else [line]
  {
    assert [line][1..] == [];
  }

  /** The lines of a skills string. */
  function SkillLines(text: string): seq<string> {
    NonBlank(Split(text, '\n'))
  }

  /** A skill line: with a colon after its first character, the trimmed
      category and ": " in bold, then the trimmed rest; otherwise the line
      as it is. */
  function SkillLineDocx(line: string): Paragraph {
    var i := IndexOf(line, ':');
    if i > 0 then
      Paragraph([Run(Trim(line[..i]) + ": ", true, false, 20, Black), Plain(Trim(line[i + 1..]), 20)], Left)
    else
      Paragraph([Plain(line, 20)], Left)
  }

  /** The category of a line runs to its first colon. */
  lemma CategorizedSkillLine(line: string, i: nat)
    requires 0 < i < |line| && line[i] == ':' && ':' !in line[..i]
    ensures SkillLineDocx(line) ==
      Paragraph([Run(Trim(line[..i]) + ": ", true, false, 20, Black), Plain(Trim(line[i + 1..]), 20)], Left)
  {
    assert IndexOf(line, ':') == i by {
      forall j | 0 <= j < i ensures line[j] != ':' {
        assert line[..i][j] == line[j];
      }
    }
  }

  /** A line without a colon, or whose colon is its first character, is not
      split. */
  lemma UncategorizedSkillLine(line: string)
    requires ':' !in line || (|line| > 0 && line[0] == ':')
    ensures SkillLineDocx(line) == Paragraph([Plain(line, 20)], Left)
  {
  }

  function SkillLinesDocx(lines: seq<string>): (r: seq<Paragraph>)
    ensures |r| == |lines|
    ensures forall i :: 0 <= i < |lines| ==> r[i] == SkillLineDocx(lines[i])
  {
    if |lines| == 0 then [] else [SkillLineDocx(lines[0])] + SkillLinesDocx(lines[1..])
  }

  function SkillsDocx(s: Skills): seq<Paragraph> {
    if !HasSkills(s) then []
    else
      [Heading(DocxTitle(SkillsSection))] +
      match s
      case SkillText(t) => SkillLinesDocx(SkillLines(t))
      case SkillList(items) => [Paragraph([Plain(Join(items, BulletSeparator), 22)], Left)]
      case _ => []
  }

  /** The bullets of a list, one paragraph each. */
  function BulletsDocx(items: seq<string>, align: Align): (r: seq<Paragraph>)
    ensures |r| == |items|
    ensures forall i :: 0 <= i < |items| ==> r[i] == Paragraph([Plain(Bullet(items[i]), 22)], align)
  {
    if |items| == 0 then [] else [Paragraph([Plain(Bullet(items[0]), 22)], align)] + BulletsDocx(items[1..], align)
  }

  /** A job: the bold position and the company, the grey italic location and
      period, then the achievement bullets, indented. */
  function JobDocx(job: Job): seq<Paragraph> {
    [Paragraph([Run(job.position, true, false, 22, Black), Plain(" | " + job.company, 22)], Left),
     Paragraph([Run(job.location + " | " + job.period, false, true, 20, Grey)], Left)] +
    BulletsDocx(job.achievements, Indented)
  }

  function JobsDocx(jobs: seq<Job>): seq<Paragraph> {
    if |jobs| == 0 then [] else JobDocx(jobs[0]) + JobsDocx(jobs[1..])
  }

  function ExperienceDocx(jobs: seq<Job>): seq<Paragraph> {
    if |jobs| > 0 then [Heading(DocxTitle(ExperienceSection))] + JobsDocx(jobs) else []
  }

  /** The graduation date and the details, the ones present, joined by
      " | ". */
  function EducationDetail(e: Education): string {
    Join(Present([e.graduation, e.details]), " | ")
  }

  /** A degree: the bold degree and the institution, then the detail line
      when there is a graduation date or details. */
  function EducationEntryDocx(e: Education): seq<Paragraph> {
    [Paragraph([Run(e.degree, true, false, 22, Black), Plain(" - " + e.institution, 22)], Left)] +
    (if e.graduation != "" || e.details != "" then
       [Paragraph([Run(EducationDetail(e), false, true, 20, Black)], Left)] else [])
  }

  function EducationEntriesDocx(es: seq<Education>): seq<Paragraph> {
    if |es| == 0 then [] else EducationEntryDocx(es[0]) + EducationEntriesDocx(es[1..])
  }

  function EducationDocx(es: seq<Education>): seq<Paragraph> {
    if |es| > 0 then [Heading(DocxTitle(EducationSection))] + EducationEntriesDocx(es) else []
  }

  /** The Credly profile line, first in the section, when there is a link. */
  function CredlyLine(link: string): string {
    "Credly Profile: " + link
  }

  function CredlyDocx(credly: string): seq<Paragraph> {
    if credly != "" then [Paragraph([Run(CredlyLine(credly), false, false, 20, LinkBlue)], Left)] else []
  }

  function CertificationsDocx(certs: seq<string>, credly: string): seq<Paragraph> {
    if |certs| > 0 then
      [Heading(DocxTitle(CertificationsSection))] + (CredlyDocx(credly) + BulletsDocx(certs, Left))
    else []
  }

  function OtherDocx(tags: seq<string>): seq<Paragraph> {
    if |tags| > 0 then [Heading(DocxTitle(OtherSection)), Paragraph([Plain(Join(tags, BulletSeparator), 22)], Left)] else []
  }

  /** The header of the Word résumé: the name, the contact line, the links. */
  function HeaderDocx(u: User): seq<Paragraph> {
    [NameBlock(u), ContactBlock(u)] + LinksBlock(u)
  }

  /** The paragraphs of one section; none when it is absent. */
  function SectionDocx(k: SectionKind, c: Resume, o: Options): seq<Paragraph> {
    match k
    case SummarySection => SummaryDocx(c.summary)
    case SkillsSection => SkillsDocx(c.skills)
    case ExperienceSection => ExperienceDocx(c.experience)
    case EducationSection => EducationDocx(c.education)
    case CertificationsSection => CertificationsDocx(c.certifications, o.credlyProfileLink)
    case OtherSection => OtherDocx(o.tags)
  }

  function SectionsDocx(ks: seq<SectionKind>, c: Resume, o: Options): seq<Paragraph> {
    if |ks| == 0 then [] else SectionsDocx(ks[..|ks| - 1], c, o) + SectionDocx(ks[|ks| - 1], c, o)
  }

  /** The paragraphs of `generateDocx`: the header, then every section in
      the fixed order. */
  function ResumeDocx(c: Resume, u: User, o: Options): seq<Paragraph> {
    HeaderDocx(u) + SectionsDocx(AllSections, c, o)
  }

  lemma HeadingsOfHeader(u: User)
    ensures Headings(HeaderDocx(u)) == []
  {
    NoHeadings(HeaderDocx(u));
  }

  lemma {:induction false} HeadingsOfJobs(jobs: seq<Job>)
    ensures Headings(JobsDocx(jobs)) == []
  {
    if |jobs| > 0 {
      NoHeadings(JobDocx(jobs[0]));
      HeadingsOfJobs(jobs[1..]);
      HeadingsConcat(JobDocx(jobs[0]), JobsDocx(jobs[1..]));
    }
  }

  lemma {:induction false} HeadingsOfEducationEntries(es: seq<Education>)
    ensures Headings(EducationEntriesDocx(es)) == []
  {
    if |es| > 0 {
      NoHeadings(EducationEntryDocx(es[0]));
      HeadingsOfEducationEntries(es[1..]);
      HeadingsConcat(EducationEntryDocx(es[0]), EducationEntriesDocx(es[1..]));
    }
  }

  /** A heading followed by paragraphs none of which is a heading. */
  lemma HeadedSection(title: string, rest: seq<Paragraph>)
    requires Headings(rest) == []
    ensures Headings([Heading(title)] + rest) == [title]
  {
    HeadingsConcat([Heading(title)], rest);
  }

  lemma HeadingsOfSummary(s: string)
    ensures Headings(SummaryDocx(s)) == if s != "" then [DocxTitle(SummarySection)] else []
  {
    if s != "" {
      var rest := [Paragraph([Plain(s, 22)], Left)];
      NoHeadings(rest);
      HeadedSection(DocxTitle(SummarySection), rest);
    }
  }

  /** A skill line opens with a 10 pt run, so it is never a heading. */
  lemma SkillLineIsBody(line: string)
    ensures SkillLineDocx(line).runs != [] && SkillLineDocx(line).runs[0].size == 20
  {
  }

  lemma NoHeadingsInSkillLines(lines: seq<string>)
    ensures Headings(SkillLinesDocx(lines)) == []
  {
    var ps := SkillLinesDocx(lines);
    forall i | 0 <= i < |ps| ensures ps[i].runs != [] && ps[i].runs[0].size != 24 {
      SkillLineIsBody(lines[i]);
    }
    NoHeadings(ps);
  }

  lemma HeadingsOfSkills(s: Skills)
    ensures Headings(SkillsDocx(s)) == if HasSkills(s) then [DocxTitle(SkillsSection)] else []
  {
    if HasSkills(s) {
      var rest := SkillsDocx(s)[1..];
      assert SkillsDocx(s) == [Heading(DocxTitle(SkillsSection))] + rest;
      match s
      case SkillText(t) =>
        NoHeadingsInSkillLines(SkillLines(t));
        HeadedSection(DocxTitle(SkillsSection), rest);
      case SkillList(items) =>
        NoHeadings(rest);
        HeadedSection(DocxTitle(SkillsSection), rest);
      case OtherSkills =>
        HeadedSection(DocxTitle(SkillsSection), rest);
    }
  }

  lemma HeadingsOfExperience(jobs: seq<Job>)
    ensures Headings(ExperienceDocx(jobs)) == if |jobs| > 0 then [DocxTitle(ExperienceSection)] else []
  {
    if |jobs| > 0 {
      HeadingsOfJobs(jobs);
      HeadedSection(DocxTitle(ExperienceSection), JobsDocx(jobs));
    }
  }

  lemma HeadingsOfEducation(es: seq<Education>)
    ensures Headings(EducationDocx(es)) == if |es| > 0 then [DocxTitle(EducationSection)] else []
  {
    if |es| > 0 {
      HeadingsOfEducationEntries(es);
      HeadedSection(DocxTitle(EducationSection), EducationEntriesDocx(es));
    }
  }

  lemma HeadingsOfCertifications(certs: seq<string>, credly: string)
    ensures Headings(CertificationsDocx(certs, credly)) ==
      if |certs| > 0 then [DocxTitle(CertificationsSection)] else []
  {
    if |certs| > 0 {
      var rest := CredlyDocx(credly) + BulletsDocx(certs, Left);
      NoHeadings(rest);
      HeadedSection(DocxTitle(CertificationsSection), rest);
    }
  }

  lemma HeadingsOfOther(tags: seq<string>)
    ensures Headings(OtherDocx(tags)) == if |tags| > 0 then [DocxTitle(OtherSection)] else []
  {
    if |tags| > 0 {
      var rest := [Paragraph([Plain(Join(tags, BulletSeparator), 22)], Left)];
      NoHeadings(rest);
      HeadedSection(DocxTitle(OtherSection), rest);
    }
  }

  /** A present section opens with its heading and has no other; an absent
      one has none. */
  lemma SectionHeadingsDocx(k: SectionKind, c: Resume, o: Options)
    ensures Headings(SectionDocx(k, c, o)) == if IsPresent(k, c, o) then [DocxTitle(k)] else []
  {
    match k
    case SummarySection => HeadingsOfSummary(c.summary);
    case SkillsSection => HeadingsOfSkills(c.skills);
    case ExperienceSection => HeadingsOfExperience(c.experience);
    case EducationSection => HeadingsOfEducation(c.education);
    case CertificationsSection => HeadingsOfCertifications(c.certifications, o.credlyProfileLink);
    case OtherSection => HeadingsOfOther(o.tags);
  }

  lemma {:induction false} SectionsHeadingsDocx(ks: seq<SectionKind>, c: Resume, o: Options)
    ensures Headings(SectionsDocx(ks, c, o)) == DocxTitles(Keep(ks, c, o))
  {
    if |ks| > 0 {
      var front := ks[..|ks| - 1];
      var last := ks[|ks| - 1];
      SectionsHeadingsDocx(front, c, o);
      SectionHeadingsDocx(last, c, o);
      HeadingsConcat(SectionsDocx(front, c, o), SectionDocx(last, c, o));
    }
  }

  /** The Word résumé has a heading for every present section, in the fixed
      order, and no other headings. */
  lemma ResumeDocxSections(c: Resume, u: User, o: Options)
    ensures Headings(ResumeDocx(c, u, o)) == DocxTitles(SectionsPresent(c, o))
  {
    HeadingsOfHeader(u);
    SectionsHeadingsDocx(AllSections, c, o);
    HeadingsConcat(HeaderDocx(u), SectionsDocx(AllSections, c, o));
  }

  lemma SectionsDocxSnoc(ks: seq<SectionKind>, k: SectionKind, c: Resume, o: Options)
    ensures SectionsDocx(ks + [k], c, o) == SectionsDocx(ks, c, o) + SectionDocx(k, c, o)
  {
    assert (ks + [k])[..|ks|] == ks;
  }

  /** With tags, the Word résumé ends with the OTHER heading and the tags
      joined by bullets: nothing comes after the Other section. */
  lemma OtherIsLastDocx(c: Resume, u: User, o: Options)
    requires |o.tags| > 0
    ensures |ResumeDocx(c, u, o)| >= 2
    ensures ResumeDocx(c, u, o)[|ResumeDocx(c, u, o)| - 2] == Heading(DocxTitle(OtherSection))
    ensures ResumeDocx(c, u, o)[|ResumeDocx(c, u, o)| - 1] == Paragraph([Plain(Join(o.tags, BulletSeparator), 22)], Left)
  {
    var first := AllSections[..5];
    assert first + [OtherSection] == AllSections;
    SectionsDocxSnoc(first, OtherSection, c, o);
    var front := HeaderDocx(u) + SectionsDocx(first, c, o);
    Associative(HeaderDocx(u), SectionsDocx(first, c, o), OtherDocx(o.tags));
    assert ResumeDocx(c, u, o) == front + OtherDocx(o.tags);
  }

  // -------------------------------------------------------------- PDF output

  /** `drawText` defaults of the résumé: 10 pt regular black at the margin. */
  const BodyStyle: Style := Style(10, false, Black, Left)

  /** The links line: the bare links that are present, centred, in blue. */
  function LinksPdf(u: User): seq<Op> {
    var links := Present([u.linkedin, u.github]);
    if |links| > 0 then [Text(Join(links, " | "), Style(9, false, LinkBlue, Centered))] else []
  }

  /** The header: the centred bold name, 5 pt, the centred contact line
      (drawn even when empty), the links. */
  function HeaderPdf(u: User): seq<Op> {
    [Text(u.fullName, Style(18, true, Black, Centered)), Skip(5),
     Text(ContactLine(u), Style(9, false, Black, Centered))] + LinksPdf(u)
  }

  function SummaryPdf(summary: string): seq<Op> {
    if summary != "" then [Section(PdfTitle(SummarySection)), Text(summary, BodyStyle)] else []
  }

  /** Each line drawn as it is. */
  function TextOps(lines: seq<string>, st: Style): (r: seq<Op>)
    ensures |r| == |lines|
    ensures forall i :: 0 <= i < |lines| ==> r[i] == Text(lines[i], st)
  {
    if |lines| == 0 then [] else [Text(lines[0], st)] + TextOps(lines[1..], st)
  }

  lemma {:induction false} TextOpsTexts(lines: seq<string>, st: Style)
    ensures OpTexts(TextOps(lines, st)) == lines
  {
    if |lines| > 0 {
      TextOpsTexts(lines[1..], st);
      OpTextsCons(Text(lines[0], st), TextOps(lines[1..], st));
      assert [lines[0]] + lines[1..] == lines;
    }
  }

  /** The skills: a string line by line, each non-blank line whole and
      without a styled category; an array joined by bullets. */
  function SkillsPdf(s: Skills): seq<Op> {
    if !HasSkills(s) then []
    else
      [Section(PdfTitle(SkillsSection))] +
      match s
      case SkillText(t) => TextOps(SkillLines(t), BodyStyle)
      case SkillList(items) => [Text(Join(items, BulletSeparator), BodyStyle)]
      case _ => []
  }

  /** The PDF draws exactly the non-blank lines of a skills string, in order,
      each whole in the plain body style: no line gets a bold category. */
  lemma PdfSkillLinesUnstyled(t: string)
    requires t != ""
    ensures OpTexts(SkillsPdf(SkillText(t))) == SkillLines(t)
    ensures |SkillsPdf(SkillText(t))| == |SkillLines(t)| + 1
    ensures forall i :: 0 <= i < |SkillLines(t)| ==> SkillsPdf(SkillText(t))[i + 1] == Text(SkillLines(t)[i], BodyStyle)
  {
    TextOpsTexts(SkillLines(t), BodyStyle);
    OpTextsCons(Section(PdfTitle(SkillsSection)), TextOps(SkillLines(t), BodyStyle));
  }

  function BulletOps(items: seq<string>, st: Style): (r: seq<Op>)
    ensures |r| == |items|
    ensures forall i :: 0 <= i < |items| ==> r[i] == Text(Bullet(items[i]), st)
  {
    if |items| == 0 then [] else [Text(Bullet(items[0]), st)] + BulletOps(items[1..], st)
  }

  /** A job: 5 pt, the bold "position | company", the grey 9 pt
      "location | period", then the achievements 10 pt right of the margin. */
  function JobPdf(job: Job): seq<Op> {
    [Skip(5), Text(job.position + " | " + job.company, Style(10, true, Black, Left)),
     Text(job.location + " | " + job.period, Style(9, false, Grey, Left))] +
    BulletOps(job.achievements, Style(10, false, Black, Indented))
  }

  function JobsPdf(jobs: seq<Job>): seq<Op> {
    if |jobs| == 0 then [] else JobPdf(jobs[0]) + JobsPdf(jobs[1..])
  }

  function ExperiencePdf(jobs: seq<Job>): seq<Op> {
    if |jobs| > 0 then [Section(PdfTitle(ExperienceSection))] + JobsPdf(jobs) else []
  }

  function EducationEntryPdf(e: Education): seq<Op> {
    [Text(e.degree + " - " + e.institution, Style(10, true, Black, Left))] +
    (if e.graduation != "" || e.details != "" then [Text(EducationDetail(e), Style(9, false, Black, Left))] else [])
  }

  function EducationEntriesPdf(es: seq<Education>): seq<Op> {
    if |es| == 0 then [] else EducationEntryPdf(es[0]) + EducationEntriesPdf(es[1..])
  }

  function EducationPdf(es: seq<Education>): seq<Op> {
    if |es| > 0 then [Section(PdfTitle(EducationSection))] + EducationEntriesPdf(es) else []
  }

  function CredlyPdf(credly: string): seq<Op> {
    if credly != "" then [Text(CredlyLine(credly), Style(9, false, LinkBlue, Left))] else []
  }

  function CertificationsPdf(certs: seq<string>, credly: string): seq<Op> {
    if |certs| > 0 then
      [Section(PdfTitle(CertificationsSection))] + (CredlyPdf(credly) + BulletOps(certs, BodyStyle))
    else []
  }

  function OtherPdf(tags: seq<string>): seq<Op> {
    if |tags| > 0 then [Section(PdfTitle(OtherSection)), Text(Join(tags, BulletSeparator), BodyStyle)] else []
  }

  /** The operations of one section; none when it is absent. */
  function SectionPdf(k: SectionKind, c: Resume, o: Options): seq<Op> {
    match k
    case SummarySection => SummaryPdf(c.summary)
    case SkillsSection => SkillsPdf(c.skills)
    case ExperienceSection => ExperiencePdf(c.experience)
    case EducationSection => EducationPdf(c.education)
    case CertificationsSection => CertificationsPdf(c.certifications, o.credlyProfileLink)
    case OtherSection => OtherPdf(o.tags)
  }

  function SectionsPdf(ks: seq<SectionKind>, c: Resume, o: Options): seq<Op> {
    if |ks| == 0 then [] else SectionsPdf(ks[..|ks| - 1], c, o) + SectionPdf(ks[|ks| - 1], c, o)
  }

  /** The drawing operations of `generatePdf`: the header, then every
      section in the fixed order. */
  function ResumePdf(c: Resume, u: User, o: Options): seq<Op> {
    HeaderPdf(u) + SectionsPdf(AllSections, c, o)
  }

  /** The titles of the `drawSection` calls of a plan, in order. */
  function SectionTitles(ops: seq<Op>): seq<string> {
    if |ops| == 0 then []
    else (if ops[0].Section? then [ops[0].title] else []) + SectionTitles(ops[1..])
  }

  lemma {:induction false} SectionTitlesConcat(a: seq<Op>, b: seq<Op>)
    ensures SectionTitles(a + b) == SectionTitles(a) + SectionTitles(b)
  {
    if |a| > 0 {
      assert (a + b)[1..] == a[1..] + b;
      SectionTitlesConcat(a[1..], b);
    } else {
      assert a + b == b;
    }
  }

  lemma {:induction false} NoSections(ops: seq<Op>)
    requires forall i :: 0 <= i < |ops| ==> !ops[i].Section?
    ensures SectionTitles(ops) == []
  {
    if |ops| > 0 {
      NoSections(ops[1..]);
    }
  }

  lemma NoSectionsInHeader(u: User)
    ensures SectionTitles(HeaderPdf(u)) == []
  {
    NoSections(HeaderPdf(u));
  }

  lemma {:induction false} NoSectionsInJobs(jobs: seq<Job>)
    ensures SectionTitles(JobsPdf(jobs)) == []
  {
    if |jobs| > 0 {
      NoSections(JobPdf(jobs[0]));
      NoSectionsInJobs(jobs[1..]);
      SectionTitlesConcat(JobPdf(jobs[0]), JobsPdf(jobs[1..]));
    }
  }

  lemma {:induction false} NoSectionsInEducation(es: seq<Education>)
    ensures SectionTitles(EducationEntriesPdf(es)) == []
  {
    if |es| > 0 {
      NoSections(EducationEntryPdf(es[0]));
      NoSectionsInEducation(es[1..]);
      SectionTitlesConcat(EducationEntryPdf(es[0]), EducationEntriesPdf(es[1..]));
    }
  }

  /** A present section makes one `drawSection` call, first; an absent one
      none. */
  lemma SectionTitlesPdf(k: SectionKind, c: Resume, o: Options)
    ensures SectionTitles(SectionPdf(k, c, o)) == if IsPresent(k, c, o) then [PdfTitle(k)] else []
  {
    var ops := SectionPdf(k, c, o);
    if IsPresent(k, c, o) {
      assert ops == [Section(PdfTitle(k))] + ops[1..];
      if k == ExperienceSection {
        NoSectionsInJobs(c.experience);
      } else if k == EducationSection {
        NoSectionsInEducation(c.education);
      } else {
        NoSections(ops[1..]);
      }
      SectionTitlesConcat([Section(PdfTitle(k))], ops[1..]);
    }
  }

  lemma {:induction false} SectionsTitlesPdf(ks: seq<SectionKind>, c: Resume, o: Options)
    ensures SectionTitles(SectionsPdf(ks, c, o)) == PdfTitles(Keep(ks, c, o))
  {
    if |ks| > 0 {
      var front := ks[..|ks| - 1];
      var last := ks[|ks| - 1];
      SectionsTitlesPdf(front, c, o);
      SectionTitlesPdf(last, c, o);
      SectionTitlesConcat(SectionsPdf(front, c, o), SectionPdf(last, c, o));
    }
  }

  /** The PDF résumé calls `drawSection` for every present section, in the
      same fixed order as the Word résumé, and for nothing else. */
  lemma ResumePdfSections(c: Resume, u: User, o: Options)
    ensures SectionTitles(ResumePdf(c, u, o)) == PdfTitles(SectionsPresent(c, o))
  {
    NoSectionsInHeader(u);
    SectionsTitlesPdf(AllSections, c, o);
    SectionTitlesConcat(HeaderPdf(u), SectionsPdf(AllSections, c, o));
  }

  lemma SectionsPdfSnoc(ks: seq<SectionKind>, k: SectionKind, c: Resume, o: Options)
    ensures SectionsPdf(ks + [k], c, o) == SectionsPdf(ks, c, o) + SectionPdf(k, c, o)
  {
    assert (ks + [k])[..|ks|] == ks;
  }

  /** With tags, the PDF plan ends with the Other section and the tags. */
  lemma OtherIsLastPdf(c: Resume, u: User, o: Options)
    requires |o.tags| > 0
    ensures |ResumePdf(c, u, o)| >= 2
    ensures ResumePdf(c, u, o)[|ResumePdf(c, u, o)| - 2] == Section(PdfTitle(OtherSection))
    ensures ResumePdf(c, u, o)[|ResumePdf(c, u, o)| - 1] == Text(Join(o.tags, BulletSeparator), BodyStyle)
  {
    var first := AllSections[..5];
    assert first + [OtherSection] == AllSections;
    SectionsPdfSnoc(first, OtherSection, c, o);
    var front := HeaderPdf(u) + SectionsPdf(first, c, o);
    Associative(HeaderPdf(u), SectionsPdf(first, c, o), OtherPdf(o.tags));
    assert ResumePdf(c, u, o) == front + OtherPdf(o.tags);
  }

  // ----------------------------------------------- agreement of the outputs

  lemma {:induction false} BulletsAgree(items: seq<string>, align: Align, st: Style)
    ensures ParagraphTexts(BulletsDocx(items, align)) == OpTexts(BulletOps(items, st))
  {
    if |items| > 0 {
      BulletsAgree(items[1..], align, st);
      TextOfOne(Plain(Bullet(items[0]), 22), align);
      ParagraphTextsConcat([Paragraph([Plain(Bullet(items[0]), 22)], align)], BulletsDocx(items[1..], align));
      OpTextsCons(Text(Bullet(items[0]), st), BulletOps(items[1..], st));
    }
  }

  /** A job reads the same in both outputs: the same lines, in the same
      order. */
  lemma JobAgrees(job: Job)
    ensures ParagraphTexts(JobDocx(job)) == OpTexts(JobPdf(job))
  {
    var p1 := Paragraph([Run(job.position, true, false, 22, Black), Plain(" | " + job.company, 22)], Left);
    var p2 := Paragraph([Run(job.location + " | " + job.period, false, true, 20, Grey)], Left);
    var t1 := Text(job.position + " | " + job.company, Style(10, true, Black, Left));
    var t2 := Text(job.location + " | " + job.period, Style(9, false, Grey, Left));
    var bs := BulletsDocx(job.achievements, Indented);
    var bo := BulletOps(job.achievements, Style(10, false, Black, Indented));
    var head := [Skip(5), t1, t2];
    assert ParagraphTexts([p1, p2]) == [t1.text, t2.text] by {
      TextOfTwo(p1.runs[0], p1.runs[1], Left);
      TextOfOne(p2.runs[0], Left);
      assert job.position + (" | " + job.company) == job.position + " | " + job.company;
    }
    assert OpTexts(head) == [t1.text, t2.text] by {
      OpTextsCons(Skip(5), [t1, t2]);
      OpTextsCons(t1, [t2]);
      OpTextsCons(t2, []);
      assert [Skip(5)] + [t1, t2] == head;
      assert [t1] + [t2] == [t1, t2];
      assert [t2] + [] == [t2];
    }
    assert JobDocx(job) == [p1, p2] + bs;
    assert JobPdf(job) == head + bo;
    ParagraphTextsConcat([p1, p2], bs);
    OpTextsConcat(head, bo);
    BulletsAgree(job.achievements, Indented, Style(10, false, Black, Indented));
  }

  lemma {:induction false} JobsAgree(jobs: seq<Job>)
    ensures ParagraphTexts(JobsDocx(jobs)) == OpTexts(JobsPdf(jobs))
  {
    if |jobs| > 0 {
      JobAgrees(jobs[0]);
      JobsAgree(jobs[1..]);
      ParagraphTextsConcat(JobDocx(jobs[0]), JobsDocx(jobs[1..]));
      OpTextsConcat(JobPdf(jobs[0]), JobsPdf(jobs[1..]));
    }
  }

  lemma EducationEntryAgrees(e: Education)
    ensures ParagraphTexts(EducationEntryDocx(e)) == OpTexts(EducationEntryPdf(e))
  {
    var p := Paragraph([Run(e.degree, true, false, 22, Black), Plain(" - " + e.institution, 22)], Left);
    var t := Text(e.degree + " - " + e.institution, Style(10, true, Black, Left));
    TextOfTwo(p.runs[0], p.runs[1], Left);
    assert e.degree + (" - " + e.institution) == e.degree + " - " + e.institution;
    var q := Paragraph([Run(EducationDetail(e), false, true, 20, Black)], Left);
    var u := Text(EducationDetail(e), Style(9, false, Black, Left));
    TextOfOne(q.runs[0], Left);
    var tailDocx := if e.graduation != "" || e.details != "" then [q] else [];
    var tailPdf := if e.graduation != "" || e.details != "" then [u] else [];
    ParagraphTextsConcat([p], tailDocx);
    OpTextsCons(t, tailPdf);
    if e.graduation != "" || e.details != "" {
      OpTextsCons(u, []);
    }
  }

  lemma {:induction false} EducationEntriesAgree(es: seq<Education>)
    ensures ParagraphTexts(EducationEntriesDocx(es)) == OpTexts(EducationEntriesPdf(es))
  {
    if |es| > 0 {
      EducationEntryAgrees(es[0]);
      EducationEntriesAgree(es[1..]);
      ParagraphTextsConcat(EducationEntryDocx(es[0]), EducationEntriesDocx(es[1..]));
      OpTextsConcat(EducationEntryPdf(es[0]), EducationEntriesPdf(es[1..]));
    }
  }

  lemma CredlyAgrees(credly: string)
    ensures ParagraphTexts(CredlyDocx(credly)) == OpTexts(CredlyPdf(credly))
  {
    if credly != "" {
      TextOfOne(Run(CredlyLine(credly), false, false, 20, LinkBlue), Left);
      OpTextsCons(Text(CredlyLine(credly), Style(9, false, LinkBlue, Left)), []);
    }
  }

  /** The Credly line and the certificate bullets read the same in both
      outputs. */
  lemma CertificationsAgree(certs: seq<string>, credly: string)
    requires |certs| > 0
    ensures ParagraphTexts(CertificationsDocx(certs, credly)[1..]) == OpTexts(CertificationsPdf(certs, credly)[1..])
  {
    BulletsAgree(certs, Left, BodyStyle);
    CredlyAgrees(credly);
    ParagraphTextsConcat(CredlyDocx(credly), BulletsDocx(certs, Left));
    OpTextsConcat(CredlyPdf(credly), BulletOps(certs, BodyStyle));
  }

  /** Below its heading, every section but a skills string reads the same in
      both outputs: the same lines in the same order.  (A skills string
      differs: the Word document trims and bolds the categories, the PDF
      draws each line whole.) */
  lemma SectionBodiesAgree(k: SectionKind, c: Resume, o: Options)
    requires IsPresent(k, c, o) && !(k == SkillsSection && c.skills.SkillText?)
    ensures |SectionDocx(k, c, o)| >= 1 && |SectionPdf(k, c, o)| >= 1
    ensures ParagraphTexts(SectionDocx(k, c, o)[1..]) == OpTexts(SectionPdf(k, c, o)[1..])
  {
    match k
    case SummarySection =>
      TextOfOne(Plain(c.summary, 22), Left);
      OpTextsCons(Text(c.summary, BodyStyle), []);
    case SkillsSection =>
      if c.skills.SkillList? {
        var j := Join(c.skills.items, BulletSeparator);
        TextOfOne(Plain(j, 22), Left);
        OpTextsCons(Text(j, BodyStyle), []);
      }
    case ExperienceSection =>
      JobsAgree(c.experience);
      assert ExperienceDocx(c.experience)[1..] == JobsDocx(c.experience);
      assert ExperiencePdf(c.experience)[1..] == JobsPdf(c.experience);
    case EducationSection =>
      EducationEntriesAgree(c.education);
      assert EducationDocx(c.education)[1..] == EducationEntriesDocx(c.education);
      assert EducationPdf(c.education)[1..] == EducationEntriesPdf(c.education);
    case CertificationsSection =>
      CertificationsAgree(c.certifications, o.credlyProfileLink);
    case OtherSection =>
      var j := Join(o.tags, BulletSeparator);
      TextOfOne(Plain(j, 22), Left);
      OpTextsCons(Text(j, BodyStyle), []);
  }

  /** Both résumés open with the name and then the contact line, which is
      emitted even when the user has no e-mail, phone or address. */
  lemma HeaderComesFirst(c: Resume, u: User, o: Options)
    ensures |ResumeDocx(c, u, o)| >= 2
    ensures ResumeDocx(c, u, o)[0] == Paragraph([Run(u.fullName, true, false, 32, Black)], Centered)
    ensures ResumeDocx(c, u, o)[1] == Paragraph([Plain(ContactLine(u), 20)], Centered)
    ensures |ResumePdf(c, u, o)| >= 3
    ensures ResumePdf(c, u, o)[0] == Text(u.fullName, Style(18, true, Black, Centered))
    ensures ResumePdf(c, u, o)[2] == Text(ContactLine(u), Style(9, false, Black, Centered))
  {
    assert ResumeDocx(c, u, o) == [NameBlock(u), ContactBlock(u)] + (LinksBlock(u) + SectionsDocx(AllSections, c, o));
    assert ResumePdf(c, u, o) == HeaderPdf(u) + SectionsPdf(AllSections, c, o);
  }

  /** The Word résumé labels the profile links, the PDF draws them bare; a
      header without links has no links line in either. */
  lemma LinkLabels(u: User)
    ensures u.linkedin != "" && u.github != "" ==>
      LinksBlock(u) == [Paragraph([Run("LinkedIn: " + u.linkedin + " | " + "GitHub: " + u.github, false, false, 18, LinkBlue)], Centered)] &&
      LinksPdf(u) == [Text(u.linkedin + " | " + u.github, Style(9, false, LinkBlue, Centered))]
    ensures u.linkedin != "" && u.github == "" ==>
      LinksBlock(u) == [Paragraph([Run("LinkedIn: " + u.linkedin, false, false, 18, LinkBlue)], Centered)] &&
      LinksPdf(u) == [Text(u.linkedin, Style(9, false, LinkBlue, Centered))]
    ensures u.linkedin == "" && u.github != "" ==>
      LinksBlock(u) == [Paragraph([Run("GitHub: " + u.github, false, false, 18, LinkBlue)], Centered)] &&
      LinksPdf(u) == [Text(u.github, Style(9, false, LinkBlue, Centered))]
    ensures u.linkedin == "" && u.github == "" ==> LinksBlock(u) == [] && LinksPdf(u) == []
  {
    PresentCons([u.linkedin, u.github]);
    PresentCons([u.github]);
    assert [u.linkedin, u.github][1..] == [u.github];
    assert [u.github][1..] == [];
    if u.linkedin != "" && u.github != "" {
      assert DocxLinks(u) == ["LinkedIn: " + u.linkedin] + ["GitHub: " + u.github];
      JoinTwo(["LinkedIn: " + u.linkedin, "GitHub: " + u.github], " | ");
      assert ("LinkedIn: " + u.linkedin) + " | " + ("GitHub: " + u.github) ==
        "LinkedIn: " + u.linkedin + " | " + "GitHub: " + u.github;
      JoinTwo([u.linkedin, u.github], " | ");
    }
  }

  /** `generatePdf` itself: a fresh document in the résumé geometry, with the
      plan drawn on it. */
  method GenerateResumePdf(c: Resume, u: User, o: Options, metrics: Metrics) returns (canvas: PdfCanvas)
    ensures fresh(canvas) && canvas.Valid()
    ensures canvas.geometry == ResumeGeometry && canvas.metrics == metrics
    ensures canvas.drawn == RunPlan(ResumeGeometry, metrics, Cursor(1, ResumeGeometry.top), ResumePdf(c, u, o)).placed
  {
    canvas := new PdfCanvas(ResumeGeometry, metrics);
    canvas.Render(ResumePdf(c, u, o));
  }
}
