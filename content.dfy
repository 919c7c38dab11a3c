/** The records the generators read: the AI-written résumé and cover-letter
    content, the user's profile and the résumé options.  A missing or falsy
    text field is modelled by "". */
module Content {
  import opened Text

  /** One entry of `cvContent.experience`. */
  datatype Job = Job(position: string, company: string, location: string,
                     period: string, achievements: seq<string>)

  /** One entry of `cvContent.education`. */
  datatype Education = Education(degree: string, institution: string,
                                 graduation: string, details: string)

  /** `cvContent.skills`, checked for truthiness and then by type: absent or
      falsy, a (non-empty) string of lines, an array, or some other truthy
      value, which gets the heading and nothing else. */
  datatype Skills = NoSkills | SkillText(text: string) | SkillList(items: seq<string>) | OtherSkills

  /** `cvContent`. */
  datatype Resume = Resume(summary: string, skills: Skills, experience: seq<Job>,
                           education: seq<Education>, certifications: seq<string>)

  /** `coverLetterContent`. */
  datatype CoverLetter = CoverLetter(salutation: string, opening: string, body: string,
                                     companyFit: string, closing: string, signoff: string)

  /** `userInfo`: the profile fields the generators use. */
  datatype User = User(fullName: string, email: string, phone: string, address: string,
                       linkedin: string, github: string)

  /** `options`: the Credly profile link and the tags of the "Other" section. */
  datatype Options = Options(credlyProfileLink: string, tags: seq<string>)

  /** The contact line of every generator: e-mail, phone and address, the
      ones present and in that order, joined by " | "; it is empty exactly
      when all three are missing. */
  function ContactLine(u: User): (r: string)
    ensures r == Join(Opt(u.email) + Opt(u.phone) + Opt(u.address), " | ")
    ensures r == "" <==> u.email == "" && u.phone == "" && u.address == ""
  {
    var parts := Present([u.email, u.phone, u.address]);
    PresentEmpty([u.email, u.phone, u.address]);
    JoinNonEmpty(parts, " | ");
    PresentThree(u.email, u.phone, u.address);
    Join(parts, " | ")
  }

  /** With all three fields, the line is e-mail | phone | address. */
  lemma FullContactLine(u: User)
    requires u.email != "" && u.phone != "" && u.address != ""
    ensures ContactLine(u) == u.email + " | " + u.phone + " | " + u.address
  {
    var parts := [u.email, u.phone, u.address];
    assert Opt(u.email) + Opt(u.phone) + Opt(u.address) == parts;
    assert parts[1..] == [u.phone, u.address];
    JoinTwo(parts[1..], " | ");
    assert u.email + " | " + (u.phone + " | " + u.address) == u.email + " | " + u.phone + " | " + u.address;
  }

  /** Whether the skills value is truthy. */
  predicate HasSkills(s: Skills) {
    match s
    case NoSkills => false
    case SkillText(t) => t != ""
    case _ => true
  }
}
