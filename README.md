# Résumé and cover-letter rendering engine, modelled in Dafny

This project models the document rendering engine of an AI résumé builder:

- the four generators in `backend/src/services/cvGenerator.js`: Word and PDF résumés, Word and PDF cover letters;
- the download-name helper `getCleanDownloadFilename` in `backend/src/index.js`.

It covers the following parts.

- **Naming** (`filenames.dfy`, `download.dfy`).
  - `sanitizeFilename` first deletes every character outside `[A-Za-z0-9\s]`, then turns each whitespace run into one `_`, then trims.
  - The storage names add `_Resume_`/`_Cover_Letter_`, a random token and the extension, and the front end shows the same name without `_` and the token.
  - The download handler deletes the first `_` + UUID-shaped token, matching hex digits in either case.
  - The model proves the round trip between storage name and display name.
- **Content records** (`content.dfy`) and the **output vocabulary** (`document.dfy`).
  - On the Word side, an output is paragraphs of styled runs.
  - On the PDF side, an output is a plan of `drawText`, `drawSection` and `y -= dy` steps.
- **Composers** (`resume.dfy`, `coverletter.dfy`).
  - These are the paragraph sequences and drawing plans each generator produces.
  - They cover:
    - the fixed section order and the presence rule of each section;
    - the string/array/other branch of skills and the `indexOf(':') > 0` category split;
    - the job and education lines;
    - the Credly line;
    - "Other" last;
    - the salutation and sign-off defaults.
  - Each composer is proved to emit its headings in order and to agree with its sibling format on the texts.
- **Greedy word wrap** (`wrap.dfy`).
  - `Groups`/`WrapText` is the reference definition.
  - `GreedyPartition` is an independent description of a greedy wrap, proved to have exactly one solution.
  - `WrapLines` is the source's loop, proved equal to `WrapText`.
- **Pagination** (`pdf.dfy`).
  - The class `PdfCanvas` holds `page`, `y` and the lines drawn so far.
  - Its methods `DrawLine`, `DrawLines`, `DrawText`, `DrawSection`, `Skip`, `Perform` and `Render` are proved against the functional layout `RunPlan`.
  - The functional layout is proved to keep every line between the margins, each later line further down the document.

String built-ins of JavaScript (`\s`, `trim`, `split`, `join`, `indexOf`, `filter(Boolean)`, `toUpperCase`) are modelled in `text.dfy`.

In these places the code behaves in ways one might not expect; the model follows the code:

- The contact line is emitted even when the user has no e-mail, phone or address.
- A skill line is split into category and rest only when its first colon is after position 0.
- In the PDF, skill lines are drawn plain, with no bold category.
- The storage name puts `_` + token in front of the extension, not at the end of the name.
- The final `trim` of `sanitizeFilename` runs after whitespace has already become `_`, so it never removes anything: " Ann " becomes "_Ann_" (`Filenames.EdgeSpacesBecomeUnderscores`).
- Word links carry `LinkedIn: `/`GitHub: ` labels; PDF links do not.
- An empty location and period still give the line " | ".

## Model


| member | source | states |
|---|---|---|
| Text.Trim | backend/src/services/cvGenerator.js:91-92 | the result is no longer than the input and neither starts nor ends with JavaScript whitespace |
| Text.TrimBetweenSpaces | backend/src/services/cvGenerator.js:91-92 | the result of `trim` is a slice of the input with only whitespace before it and only whitespace after it |
| Text.IndexOf | backend/src/services/cvGenerator.js:89 | -1 exactly when the character is absent; otherwise the position of its first occurrence |
| Text.Split | backend/src/services/cvGenerator.js:86 | never an empty list, and no piece holds the separator |
| Text.JoinSplit | backend/src/services/cvGenerator.js:293 | joining the pieces of a split with the separator gives back the string |
| Text.SplitJoin | backend/src/services/cvGenerator.js:293 | splitting a join of separator-free pieces gives back the pieces |
| Text.Join | backend/src/services/cvGenerator.js:336 | `join`: the parts with the separator between each two; `JoinSplit`, `SplitJoin` and `JoinNonEmpty` state its properties |
| Text.ReplaceChar | backend/src/services/cvGenerator.js:290 | same length; every occurrence of the character replaced, every other character kept |
| Text.ToUpper | backend/src/services/cvGenerator.js:325 | same length, each character upper-cased |
| Text.Present | backend/src/services/cvGenerator.js:335 | `filter(Boolean)`: only non-empty values are kept, and all of them; the list is unchanged when none is empty |
| Text.PresentConcat | backend/src/services/cvGenerator.js:335 | filtering a concatenation is the concatenation of the filtered parts, so the kept values stay in their order |
| Text.PresentOne | backend/src/services/cvGenerator.js:335 | a single value is kept exactly when it is non-empty; with `PresentConcat` this fixes every filter result |
| Text.PresentThree | backend/src/services/cvGenerator.js:335 | filtering three values keeps each non-empty one in its place |
| Text.PresentFour | backend/src/services/cvGenerator.js:471-476 | filtering four values keeps each non-empty one in its place |
| Text.PresentEmpty | backend/src/services/cvGenerator.js:335 | nothing is left exactly when every value is empty |
| Text.JoinNonEmpty | backend/src/services/cvGenerator.js:336 | a join of non-empty parts is empty exactly when there are no parts |
| Content.ContactLine | backend/src/services/cvGenerator.js:30-37 | the contact line is the present ones of e-mail, phone and address, in that order, joined by a space, a vertical bar and a space; it is empty exactly when all three are missing |
| Content.FullContactLine | backend/src/services/cvGenerator.js:30-37 | with all three fields the line is e-mail, phone and address separated by a space, a vertical bar and a space |
| Content.HasSkills | backend/src/services/cvGenerator.js:75 | skills are truthy: a non-empty string, or any array or other value, but not a missing one; `HeadingsOfSkills` states that the SKILLS heading appears exactly then |
| Filenames.StripDisallowed | backend/src/services/cvGenerator.js:11 | only ASCII letters, digits and whitespace remain, and every letter and digit is kept in order |
| Filenames.StripOne | backend/src/services/cvGenerator.js:11 | a single character is kept exactly when it is an ASCII letter, digit or whitespace, and deleted otherwise |
| Filenames.StripConcat | backend/src/services/cvGenerator.js:11 | stripping works piece by piece; with `StripOne` this fixes the stripped form of every name |
| Filenames.StripAlnumSpaces | backend/src/services/cvGenerator.js:11 | a name of letters, digits and whitespace only is left as it is, whitespace included |
| Filenames.CollapseSpaces | backend/src/services/cvGenerator.js:11 | no whitespace is left; empty exactly when the input is; the first character is kept, or becomes `_` if it was whitespace |
| Filenames.CollapseLeadingRun | backend/src/services/cvGenerator.js:11 | a whitespace run of any length and of any `\s` characters, followed by a non-space or the end, becomes exactly one `_` |
| Filenames.CollapseRun | backend/src/services/cvGenerator.js:11 | between a space-free word and a non-space, a whitespace run of any length and kind becomes exactly one `_`, and the word is kept |
| Filenames.CollapseNoDoubleUnderscore | backend/src/services/cvGenerator.js:11 | on an underscore-free input no two underscores end up adjacent |
| Filenames.CollapseKeepsAlnum | backend/src/services/cvGenerator.js:11 | collapsing keeps every letter and digit, in order |
| Filenames.CollapseNameChars | backend/src/services/cvGenerator.js:11 | collapsing letters, digits and whitespace leaves only `[A-Za-z0-9_]` |
| Filenames.Sanitize | backend/src/services/cvGenerator.js:10-12 | the name holds only `[A-Za-z0-9_]`, never two underscores in a row, and every ASCII letter and digit of the input in order; `SanitizeSeparatedWords` states that each whitespace run becomes one `_` |
| Filenames.SanitizeSteps | backend/src/services/cvGenerator.js:11 | after stripping and collapsing, the final `trim` has nothing to remove |
| Filenames.SanitizeUntrimmed | backend/src/services/cvGenerator.js:11 | the sanitised name equals the collapsed, stripped name: the `trim` is the identity |
| Filenames.EdgeSpacesBecomeUnderscores | backend/src/services/cvGenerator.js:11 | a name starting with whitespace gives a sanitised name starting with `_` |
| Filenames.SanitizeDropsDisallowed | backend/src/services/cvGenerator.js:11 | inserting a character outside `[A-Za-z0-9\s]` anywhere does not change the result |
| Filenames.SanitizeSeparatedWords | backend/src/services/cvGenerator.js:10-12 | alphanumeric words separated by whitespace runs of any length and kind come out joined by single underscores |
| Filenames.CollapseSeparatedWords | backend/src/services/cvGenerator.js:11 | each whitespace run between alphanumeric words becomes one `_` |
| Filenames.SanitizeMixedRun | backend/src/services/cvGenerator.js:10-12 | "Ann \t Lee" (space, tab, space) becomes "Ann_Lee" |
| Filenames.SanitizeTwoWords | backend/src/services/cvGenerator.js:10-12 | "Jane OBrien" becomes "Jane_OBrien" |
| Filenames.SanitizeExample | backend/src/services/cvGenerator.js:10-12 | "Jane O'Brien" becomes "Jane_OBrien" |
| Filenames.SanitizeHasNoHyphen | backend/src/services/cvGenerator.js:10-12 | a sanitised name never holds a hyphen |
| Filenames.Stem | backend/src/services/cvGenerator.js:257 | the sanitised name (or "User") plus the kind label holds no hyphen |
| Filenames.Subject | backend/src/services/cvGenerator.js:257 | the name files are named after: the full name, or "User" when it is missing; used through `Stem` |
| Filenames.DisplayName | dashboard/src/pages/Generate.jsx:93-181 | the download name the dashboard assigns: the sanitised subject, `_Resume` or `_Cover_Letter`, and the extension; `StorageName` and `StorageNameStripsToDisplayName` relate it to the stored name |
| Filenames.StorageName | backend/src/services/cvGenerator.js:257-258 | the storage name is the display name with `_` + token in front of its extension; the same template is used at lines 416-417, 520-521 and 619-620 |
| DownloadName.FindMatch | backend/src/index.js:34-35 | the result is a match position with no match before it, or the report that no match exists from that point on |
| DownloadName.IsUuidShaped | backend/src/index.js:34 | the token the pattern accepts: 36 characters, hex groups of 8, 4, 4, 4 and 12 in either case, with hyphens at offsets 8, 13, 18 and 23 |
| DownloadName.MatchAt | backend/src/index.js:34 | the pattern matches at a position: an underscore there, followed by a UUID-shaped token |
| DownloadName.CleanDownloadFilename | backend/src/index.js:31-36 | a name without a match comes back unchanged; otherwise exactly the leftmost match is removed |
| DownloadName.NoMatchWithoutHyphen | backend/src/index.js:34 | no match starts where the ninth character after it is not a hyphen |
| DownloadName.SanitizedNameUntouched | backend/src/index.js:34-35 | stripping never changes a sanitised name |
| DownloadName.TokenIsFirstMatch | backend/src/index.js:34-35 | in a hyphen-free stem + `_` + token + rest, the token is the match removed, leaving stem + rest |
| DownloadName.StorageNameStripsToDisplayName | backend/src/index.js:31-36 | stripping the storage name of any UUID-shaped token, in either hex case, gives exactly the download name the dashboard shows |
| Wrap.Words | backend/src/services/cvGenerator.js:290-293 | a text always has at least one word |
| Wrap.Groups | backend/src/services/cvGenerator.js:297-306 | the lines are never empty, and there is at least one line |
| Wrap.WrapText | backend/src/services/cvGenerator.js:289-307 | the line list is never empty |
| Wrap.GroupsAreGreedy | backend/src/services/cvGenerator.js:297-306 | the lines hold all the words in order; every word after the first on a line was accepted because the line with it fitted; each line ends only because the next word would not fit |
| Wrap.GreedyIsUnique | backend/src/services/cvGenerator.js:297-306 | any greedy partition of the words is exactly the one the loop builds |
| Wrap.GreedyNewLine | backend/src/services/cvGenerator.js:300-302 | opening a new line for a word that does not fit keeps the partition greedy |
| Wrap.GreedySameLine | backend/src/services/cvGenerator.js:303-305 | adding a word that fits to the last line keeps the partition greedy |
| Wrap.WrapKeepsText | backend/src/services/cvGenerator.js:289-307 | for prose words, the lines joined by spaces give back the text with newlines turned into spaces |
| Wrap.WideWordBreaksGroup | backend/src/services/cvGenerator.js:300 | with a monotone width, a line of two or more words that holds a too-wide word cannot fit |
| Wrap.OverwideWordStandsAlone | backend/src/services/cvGenerator.js:300-302 | with a monotone width, a word too wide by itself is alone on its line; words are never split |
| Wrap.FittingWordsStayTogether | backend/src/services/cvGenerator.js:297-306 | with a monotone width, words that fit together form one line |
| Wrap.ShortTextIsOneLine | backend/src/services/cvGenerator.js:289-307 | a text that fits, with its trailing space, is drawn as that one line |
| Wrap.WrapEmpty | backend/src/services/cvGenerator.js:293-307 | an empty text gives exactly one empty line |
| Wrap.WrapBreak | backend/src/services/cvGenerator.js:300-302 | the break branch of one loop turn keeps the loop invariant |
| Wrap.WrapJoin | backend/src/services/cvGenerator.js:303-304 | the join branch of one loop turn keeps the loop invariant |
| Wrap.FoldWrapState | backend/src/services/cvGenerator.js:294-306 | after any number of words, the loop state is the one the reference groups describe |
| Wrap.FoldWrapComplete | backend/src/services/cvGenerator.js:307 | pushing the last trimmed line after all the words gives `WrapText` |
| Wrap.StepWrap | backend/src/services/cvGenerator.js:298-305 | one turn of the loop: a new line when the test line is too wide and the current line is not empty, otherwise the word is appended; `WrapBreak` and `WrapJoin` state that each branch keeps the loop invariant |
| Wrap.FoldWrap | backend/src/services/cvGenerator.js:297-306 | the loop state after a list of words; `FoldWrapState` ties it to the reference grouping |
| Wrap.WrapLines | backend/src/services/cvGenerator.js:289-307 | the loop returns exactly the lines `WrapText` defines |
| Pdf.Slot | backend/src/services/cvGenerator.js:310-313 | a new page with `y` at the top margin exactly when `y` is below the bottom margin; otherwise nothing changes |
| Pdf.PlaceLines | backend/src/services/cvGenerator.js:309-316 | one drawn line per wrapped line |
| Pdf.PlaceAt | backend/src/services/cvGenerator.js:310-314 | the line drawn at a cursor, in the slot `Slot` gives it; see `PlaceLinesFirstLine` |
| Pdf.NextLine | backend/src/services/cvGenerator.js:315 | the cursor a line height below the slot; see `PlaceLinesStep` |
| Pdf.SectionStart | backend/src/services/cvGenerator.js:320-324 | the first part of `drawSection`: 20 pt down, then a new page at the top margin when `y` is below 80 |
| Pdf.RunOp | backend/src/services/cvGenerator.js:278-328 | what one `drawText`, `drawSection` or `y -= dy` draws and where it leaves the cursor; `RunOpDrawsLines`, `FlowOp` and `SectionOp` state its properties |
| Pdf.SectionOp | backend/src/services/cvGenerator.js:319-328 | `drawSection` draws what `drawText` of the upper-cased title draws from the section start, then moves 5 pt further down |
| Pdf.RunPlan | backend/src/services/cvGenerator.js:330-410 | a whole plan, step after step; `RunPlanDrawsLines` and `PlanIsWellLaidOut` state its properties |
| Pdf.PlaceLinesDrawsLines | backend/src/services/cvGenerator.js:314 | the drawn texts are the lines, in order, all in the call's style |
| Pdf.PlaceLinesFirstLine | backend/src/services/cvGenerator.js:310-314 | the first line goes on the next page at the top margin when `y` is below the bottom margin, and at `y` otherwise |
| Pdf.PlaceLinesStep | backend/src/services/cvGenerator.js:309-316 | each line is placed in its slot, and the rest follow from a line height lower |
| Pdf.FlowLine | backend/src/services/cvGenerator.js:309-316 | drawing one line keeps the layout invariant |
| Pdf.FlowLines | backend/src/services/cvGenerator.js:309-316 | drawing the lines of a text keeps the layout invariant |
| Pdf.FlowOp | backend/src/services/cvGenerator.js:278-328 | `drawText`, `drawSection` and a downward step each keep the layout invariant |
| Pdf.FlowPlan | backend/src/services/cvGenerator.js:330-410 | a whole plan keeps the layout invariant |
| Pdf.FlowingMeaning | backend/src/services/cvGenerator.js:309-316 | under the invariant every line lies between the margins of a page numbered from 1 to the current page, and every later line is on a later page or at least a line height lower |
| Pdf.RunPlanDrawsLines | backend/src/services/cvGenerator.js:330-410 | the drawn texts are the wrapped lines of the plan's texts and titles, in order |
| Pdf.PlanIsWellLaidOut | backend/src/services/cvGenerator.js:271-328 | from the top of page 1, every drawn line has bottom ≤ y ≤ top on a page ≥ 1, and each later line is on a later page or at least a line height lower, so pages never decrease |
| Pdf.PdfCanvas.constructor | backend/src/services/cvGenerator.js:267-273 | a new document is on page 1 with `y` at the top margin and nothing drawn |
| Pdf.PdfCanvas.DrawLine | backend/src/services/cvGenerator.js:310-315 | one line is drawn in the cursor's slot, `y` ends a line height lower, and the invariant is kept |
| Pdf.PdfCanvas.DrawLines | backend/src/services/cvGenerator.js:309-316 | the loop draws exactly the lines `PlaceLines` places and leaves the cursor where `PlaceLines` ends |
| Pdf.PdfCanvas.DrawText | backend/src/services/cvGenerator.js:278-317 | `drawText` draws the wrapped lines and moves the cursor as `RunOp` says |
| Pdf.PdfCanvas.DrawSection | backend/src/services/cvGenerator.js:319-328 | 20 pt down, a new page below 80, the upper-cased 12 pt bold title, then 5 pt down, as `RunOp` says |
| Pdf.PdfCanvas.StartSection | backend/src/services/cvGenerator.js:320-324 | `y` moves 20 pt down, and to the top of a new page when that is below 80; nothing is drawn |
| Pdf.PdfCanvas.Skip | backend/src/services/cvGenerator.js:332 | `y` moves down by the amount, and nothing is drawn |
| Pdf.PdfCanvas.Perform | backend/src/services/cvGenerator.js:330-410 | one step of a plan, as `RunOp` says |
| Pdf.PdfCanvas.Render | backend/src/services/cvGenerator.js:330-410 | the whole plan, drawn and positioned as `RunPlan` says |
| ResumeComposer.SameHeadings | backend/src/services/cvGenerator.js:325 | the PDF section title, upper-cased by `drawSection`, is the Word heading |
| ResumeComposer.IsPresent | backend/src/services/cvGenerator.js:58-235 | the presence test of each section, the same in both formats (Word at :59, :75, :123, :164, :195 and :223; PDF at :347, :353, :369, :384, :395 and :407): a non-empty summary, truthy skills, a non-empty list of jobs, degrees or certifications, tags for Other; `Keep`, `SectionHeadingsDocx` and `SectionTitlesPdf` state that a section appears exactly when its test holds |
| ResumeComposer.Keep | backend/src/services/cvGenerator.js:58-235 | a section is kept exactly when it is present |
| ResumeComposer.KeepRanked | backend/src/services/cvGenerator.js:58-235 | keeping only the present sections preserves the fixed order |
| ResumeComposer.SectionsInOrder | backend/src/services/cvGenerator.js:222-235 | the present sections are in strictly increasing fixed order; Other is among them exactly when there are tags, and then it is last |
| ResumeComposer.NonBlank | backend/src/services/cvGenerator.js:86 | no kept line is blank, and every non-blank line is kept |
| ResumeComposer.NonBlankConcat | backend/src/services/cvGenerator.js:86 | dropping blank lines works piece by piece, so the kept lines stay in their split order |
| ResumeComposer.NonBlankOne | backend/src/services/cvGenerator.js:86 | a single line is kept exactly when it is not blank after trimming; with `NonBlankConcat` this fixes every result |
| ResumeComposer.HeaderDocx | backend/src/services/cvGenerator.js:18-56 | the Word header: the 16 pt bold centred name, the centred 10 pt contact line, then the links paragraph; `HeaderComesFirst` states its first two paragraphs, `LinkLabels` its links and `HeadingsOfHeader` that it has no heading |
| ResumeComposer.SummaryDocx | backend/src/services/cvGenerator.js:58-72 | the PROFESSIONAL SUMMARY heading and the summary in 11 pt when the summary is non-empty, nothing otherwise; `HeadingsOfSummary` states it |
| ResumeComposer.HeadingsOfSummary | backend/src/services/cvGenerator.js:58-72 | the summary section has its heading exactly when the summary is non-empty, and no other heading |
| ResumeComposer.CategorizedSkillLine | backend/src/services/cvGenerator.js:89-101 | a colon after position 0 gives a bold trimmed category with ": ", then the trimmed rest |
| ResumeComposer.SkillLineDocx | backend/src/services/cvGenerator.js:89-108 | the paragraph of one skill line; `CategorizedSkillLine` and `UncategorizedSkillLine` state both branches |
| ResumeComposer.UncategorizedSkillLine | backend/src/services/cvGenerator.js:102-108 | a line without a colon, or with a leading colon, is one plain run |
| ResumeComposer.SkillLinesDocx | backend/src/services/cvGenerator.js:87-110 | one paragraph per skill line, in order |
| ResumeComposer.BulletsDocx | backend/src/services/cvGenerator.js:151-158 | one "• item" paragraph per item, in order |
| ResumeComposer.LinksBlock | backend/src/services/cvGenerator.js:43-56 | the Word links paragraph; `LinkLabels` states its four cases |
| ResumeComposer.SkillsDocx | backend/src/services/cvGenerator.js:74-120 | the Word skills section; `HeadingsOfSkills` states when it has its heading |
| ResumeComposer.JobDocx | backend/src/services/cvGenerator.js:131-160 | a job's Word paragraphs; `JobAgrees` relates them to the PDF |
| ResumeComposer.ExperienceDocx | backend/src/services/cvGenerator.js:122-161 | the PROFESSIONAL EXPERIENCE heading and the jobs in order when there are jobs, nothing otherwise; `HeadingsOfExperience` states its heading and `JobsAgree` relates its jobs to the PDF |
| ResumeComposer.EducationEntryDocx | backend/src/services/cvGenerator.js:172-191 | a degree: the bold degree and " - " + institution, then the italic detail line only when there is a graduation date or details; `EducationEntryAgrees` relates it to the PDF |
| ResumeComposer.EducationDocx | backend/src/services/cvGenerator.js:163-192 | the Word education section; `HeadingsOfEducation` and `EducationEntriesAgree` state its properties |
| ResumeComposer.CredlyDocx | backend/src/services/cvGenerator.js:203-211 | the blue 10 pt "Credly Profile: " line when there is a link, nothing otherwise; `CredlyAgrees` relates it to the PDF |
| ResumeComposer.CredlyAgrees | backend/src/services/cvGenerator.js:203-211 | the Word and PDF Credly lines have the same text, and both are absent without a link |
| ResumeComposer.CertificationsDocx | backend/src/services/cvGenerator.js:194-220 | the Word certifications section; `HeadingsOfCertifications` and `CertificationsAgree` state its properties |
| ResumeComposer.OtherDocx | backend/src/services/cvGenerator.js:222-235 | the OTHER heading and the tags joined by " • " when there are tags, nothing otherwise; `HeadingsOfOther` and `OtherIsLastDocx` state it |
| ResumeComposer.HeadingsOfOther | backend/src/services/cvGenerator.js:222-235 | the Other section has its heading exactly when there are tags, and no other heading |
| ResumeComposer.ResumeDocx | backend/src/services/cvGenerator.js:19-235 | the Word résumé: the header, then the present sections in the fixed order; `HeaderComesFirst`, `ResumeDocxSections` and `OtherIsLastDocx` state its properties |
| ResumeComposer.HeaderComesFirst | backend/src/services/cvGenerator.js:19-41 | both résumés open with the name and then the contact line, and the contact line is there even when it is empty |
| ResumeComposer.LinkLabels | backend/src/services/cvGenerator.js:43-56 | the Word links are labelled and the PDF links are bare; neither format has a links line without links |
| ResumeComposer.HeadingsOfSkills | backend/src/services/cvGenerator.js:75-120 | the skills section has the SKILLS heading exactly when skills are truthy, and no other heading |
| ResumeComposer.HeadingsOfExperience | backend/src/services/cvGenerator.js:123-161 | one heading exactly when there are jobs |
| ResumeComposer.HeadingsOfEducation | backend/src/services/cvGenerator.js:164-192 | one heading exactly when there are degrees |
| ResumeComposer.HeadingsOfCertifications | backend/src/services/cvGenerator.js:195-220 | one heading exactly when there are certifications, whatever the Credly link |
| ResumeComposer.SectionHeadingsDocx | backend/src/services/cvGenerator.js:58-235 | a section contributes its heading exactly when it is present |
| ResumeComposer.ResumeDocxSections | backend/src/services/cvGenerator.js:19-235 | the Word headings are those of the present sections, in the fixed order |
| ResumeComposer.OtherIsLastDocx | backend/src/services/cvGenerator.js:222-235 | with tags, the last two paragraphs are the OTHER heading and the tags joined by " • " |
| ResumeComposer.PdfSkillLinesUnstyled | backend/src/services/cvGenerator.js:356-361 | after the Skills title, the PDF draws each non-blank skill line whole, in order, one `drawText` each in the plain 10 pt body style, so no category is bold |
| ResumeComposer.HeaderPdf | backend/src/services/cvGenerator.js:330-344 | the PDF header: the centred 18 pt bold name, 5 pt, the centred 9 pt contact line drawn even when empty, then the links; `HeaderComesFirst` states its name and contact steps |
| ResumeComposer.SummaryPdf | backend/src/services/cvGenerator.js:346-350 | a Professional Summary `drawSection` and the summary in the body style when the summary is non-empty, nothing otherwise; `SectionTitlesPdf` and `SectionBodiesAgree` state it |
| ResumeComposer.LinksPdf | backend/src/services/cvGenerator.js:339-344 | the PDF links line; `LinkLabels` states its four cases |
| ResumeComposer.SkillsPdf | backend/src/services/cvGenerator.js:352-366 | the PDF skills section; `PdfSkillLinesUnstyled` states its lines |
| ResumeComposer.JobPdf | backend/src/services/cvGenerator.js:371-380 | a job's PDF steps; `JobAgrees` relates them to the Word paragraphs |
| ResumeComposer.ExperiencePdf | backend/src/services/cvGenerator.js:368-381 | a Professional Experience `drawSection` and the jobs in order when there are jobs, nothing otherwise; `SectionTitlesPdf` and `JobsAgree` state it |
| ResumeComposer.EducationEntryPdf | backend/src/services/cvGenerator.js:386-391 | a degree: the bold "degree - institution", then the 9 pt detail line only when there is a graduation date or details; `EducationEntryAgrees` relates it to the Word paragraphs |
| ResumeComposer.EducationPdf | backend/src/services/cvGenerator.js:383-392 | the PDF education section; `EducationEntriesAgree` relates it to the Word section |
| ResumeComposer.CredlyPdf | backend/src/services/cvGenerator.js:397-400 | the blue 9 pt "Credly Profile: " line when there is a link, nothing otherwise; `CredlyAgrees` relates it to the Word line |
| ResumeComposer.CertificationsPdf | backend/src/services/cvGenerator.js:394-404 | the PDF certifications section; `CertificationsAgree` relates it to the Word section |
| ResumeComposer.OtherPdf | backend/src/services/cvGenerator.js:406-410 | an Other `drawSection` and the tags joined by " • " when there are tags, nothing otherwise; `OtherIsLastPdf` states it |
| ResumeComposer.ResumePdf | backend/src/services/cvGenerator.js:330-410 | the PDF résumé plan; `HeaderComesFirst`, `ResumePdfSections`, `OtherIsLastPdf` and `SectionBodiesAgree` state its properties |
| ResumeComposer.SectionTitlesPdf | backend/src/services/cvGenerator.js:346-410 | a section makes one `drawSection` call exactly when it is present |
| ResumeComposer.ResumePdfSections | backend/src/services/cvGenerator.js:330-410 | the PDF's `drawSection` titles are those of the present sections, in the same order as the Word headings |
| ResumeComposer.OtherIsLastPdf | backend/src/services/cvGenerator.js:406-410 | with tags, the plan ends with the Other title and the tags joined by " • " |
| ResumeComposer.JobAgrees | backend/src/services/cvGenerator.js:131-160 | a job's Word paragraphs and PDF lines have the same texts |
| ResumeComposer.EducationEntryAgrees | backend/src/services/cvGenerator.js:172-191 | a degree's Word paragraphs and PDF lines have the same texts, with the detail line only when there is a graduation date or details |
| ResumeComposer.CertificationsAgree | backend/src/services/cvGenerator.js:194-220 | the Credly line, then the bullets, in both formats |
| ResumeComposer.SectionBodiesAgree | backend/src/services/cvGenerator.js:58-235 | below its title, every present section except string skills has the same texts in both formats |
| ResumeComposer.GenerateResumePdf | backend/src/services/cvGenerator.js:265-410 | the résumé PDF draws exactly the lines `RunPlan` lays out for the résumé plan, in the résumé geometry |
| CoverLetterComposer.Salutation | backend/src/services/cvGenerator.js:465 | never empty; "Dear Hiring Manager," when missing |
| CoverLetterComposer.Signoff | backend/src/services/cvGenerator.js:490 | never empty; "Sincerely," when missing |
| CoverLetterComposer.BodyParagraphs | backend/src/services/cvGenerator.js:471-476 | the opening, body, company-fit and closing paragraphs filtered by truthiness, the same list at :599-604 for the PDF; `BodyKeepsOrder` states which are kept and in what order |
| CoverLetterComposer.BodyKeepsOrder | backend/src/services/cvGenerator.js:471-476 | for every combination of present paragraphs, the body is the present ones of opening, body, company fit and closing, in that order |
| CoverLetterComposer.BodyDocx | backend/src/services/cvGenerator.js:478-485 | one 11 pt paragraph per body paragraph, in order |
| CoverLetterComposer.OpeningDocx | backend/src/services/cvGenerator.js:428-468 | the 14 pt bold name, the 10 pt contact line, the 11 pt date and the 11 pt salutation, all at the left margin; `CoverLetterDocxLines` states their texts |
| CoverLetterComposer.ClosingDocx | backend/src/services/cvGenerator.js:487-500 | the 11 pt sign-off and then the 11 pt name; `CoverLetterDocxLines` states their texts |
| CoverLetterComposer.CoverLetterDocxLines | backend/src/services/cvGenerator.js:425-500 | the Word letter's paragraphs are the name, contact line, date, salutation, body, sign-off and name |
| CoverLetterComposer.CoverLetterDocx | backend/src/services/cvGenerator.js:425-500 | the Word letter's paragraphs; `CoverLetterDocxLines` states their texts |
| CoverLetterComposer.OpeningPdf | backend/src/services/cvGenerator.js:579-596 | the name in 14 pt bold, the contact line in 10 pt, the date and the salutation in 11 pt, with 5, 20, 20 and 10 pt below them; `OpeningPdfTexts` states its texts |
| CoverLetterComposer.OpeningPdfTexts | backend/src/services/cvGenerator.js:579-596 | the PDF opening draws the name, contact line, date and salutation |
| CoverLetterComposer.ClosingPdf | backend/src/services/cvGenerator.js:611-615 | 10 pt down, the 11 pt sign-off, 5 pt down, the 11 pt name; `ClosingPdfTexts` states its texts |
| CoverLetterComposer.ClosingPdfTexts | backend/src/services/cvGenerator.js:611-615 | the PDF closing draws the sign-off and then the name |
| CoverLetterComposer.BodyOps | backend/src/services/cvGenerator.js:606-609 | two steps per body paragraph: the paragraph drawn at 11 pt regular at the margin, then 10 pt of space, in the paragraphs' order |
| CoverLetterComposer.BodyOpsTexts | backend/src/services/cvGenerator.js:606-609 | the PDF body draws each paragraph once, in order |
| CoverLetterComposer.CoverLetterPdfLines | backend/src/services/cvGenerator.js:579-615 | the PDF letter draws the same lines as the Word letter |
| CoverLetterComposer.CoverLetterPdf | backend/src/services/cvGenerator.js:579-615 | the PDF letter's plan; `CoverLetterPdfLines` states its texts |
| CoverLetterComposer.FormatsAgree | backend/src/services/cvGenerator.js:425-615 | both formats give the same texts; the letter starts with the name and ends with the sign-off and the name |
| CoverLetterComposer.GenerateCoverLetterPdf | backend/src/services/cvGenerator.js:529-616 | the cover-letter PDF draws exactly the lines `RunPlan` lays out for the letter plan, in the cover-letter geometry |

## Left out

- Byte-level output is not modelled: building the Word and PDF files, fonts, and writing them to disk or storage. The model stops at the paragraph sequence and the list of drawn lines.
- Glyph widths are a parameter (`Wrap.Metrics`). Lemmas that need widths to grow when text is added take that as a `Monotone` hypothesis.
- x coordinates are not modelled, nor the centring offsets derived from widths. Colours are names (black, link blue, grey), not rgb values.
- Word-only layout is not modelled: paragraph spacing, indent amounts and page margins.
- The random UUID token and the formatted date are parameters; the clock and the random source are not modelled. The unused `customFilename` argument is left out.
- A missing field is modelled as "". So are `null` and `undefined`.
  - Template literals in the source print "undefined" for a missing position, company, degree or institution. That output is not modelled.
  - A missing full name makes the PDF `drawText` fail. That failure is not modelled.
- Wrap.WrapKeepsText: the join-back property is stated only for texts whose space-split words are non-empty and hold no whitespace. Runs of spaces or tabs at line ends would be trimmed away. Word order and the absence of split words are proved for every text (`Wrap.GroupsAreGreedy`).
- Wrap.ShortTextIsOneLine: stated for texts of such words under a monotone width.
- ResumeComposer.SectionBodiesAgree: the string skills section is excluded because the two formats really differ there. Word splits each line at its colon; the PDF draws the line as it is (`ResumeComposer.PdfSkillLinesUnstyled`).
- Text.ToUpper: only ASCII letters are upper-cased. The engine applies it only to its own fixed ASCII titles.
- The copies of `sanitizeFilename` in the dashboard, the extension and the routes are not modelled separately; `Filenames.Sanitize` stands for them.
- The concurrent rendering of the four documents in the routes is not modelled.
