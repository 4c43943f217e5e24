/** The canonical enhanced-resume record: the seven string fields of
    `EnhanceResumeOutputSchema.enhancedResume`, the keys that name them, and the
    single-field spread update `{ ...prev, [section]: content }`. */
module ResumeSchema {

  /** `keyof EnhancedResume`. */
  datatype Section = PersonalInfo | AboutMe | Education | Skills | SoftSkills | Projects | Achievements

  datatype Resume = Resume(
    personalInfo: string,
    aboutMe: string,
    education: string,
    skills: string,
    softSkills: string,
    projects: string,
    achievements: string)

  /** `resume[section]`. */
  function Field(r: Resume, s: Section): string
  {
    match s
    case PersonalInfo => r.personalInfo
    case AboutMe => r.aboutMe
    case Education => r.education
    case Skills => r.skills
    case SoftSkills => r.softSkills
    case Projects => r.projects
    case Achievements => r.achievements
  }

  /** `{ ...r, [s]: content }`: the field `s` becomes `content` and every other field keeps its value. */
  function WithField(r: Resume, s: Section, content: string): (r': Resume)
    ensures Field(r', s) == content
    ensures forall t :: t != s ==> Field(r', t) == Field(r, t)
  {
    match s
    case PersonalInfo => r.(personalInfo := content)
    case AboutMe => r.(aboutMe := content)
    case Education => r.(education := content)
    case Skills => r.(skills := content)
    case SoftSkills => r.(softSkills := content)
    case Projects => r.(projects := content)
    case Achievements => r.(achievements := content)
  }

  /** A resume is determined by its seven fields: there is no state besides them. */
  lemma FieldsDetermine(a: Resume, b: Resume)
    requires forall s :: Field(a, s) == Field(b, s)
    ensures a == b
  {
    assert Field(a, PersonalInfo) == Field(b, PersonalInfo);
    assert Field(a, AboutMe) == Field(b, AboutMe);
    assert Field(a, Education) == Field(b, Education);
    assert Field(a, Skills) == Field(b, Skills);
    assert Field(a, SoftSkills) == Field(b, SoftSkills);
    assert Field(a, Projects) == Field(b, Projects);
    assert Field(a, Achievements) == Field(b, Achievements);
  }

  /** Writing back a field's own value leaves the resume as it was. */
  lemma WithFieldUnchanged(r: Resume, s: Section)
    ensures WithField(r, s, Field(r, s)) == r
  {
    FieldsDetermine(WithField(r, s, Field(r, s)), r);
  }

  /** A second edit of the same field replaces the first. */
  lemma WithFieldLastWins(r: Resume, s: Section, a: string, b: string)
    ensures WithField(WithField(r, s, a), s, b) == WithField(r, s, b)
  {
    FieldsDetermine(WithField(WithField(r, s, a), s, b), WithField(r, s, b));
  }

  /** Edits of two different fields do not interfere, in either order. */
  lemma WithFieldCommute(r: Resume, s: Section, t: Section, a: string, b: string)
    requires s != t
    ensures WithField(WithField(r, s, a), t, b) == WithField(WithField(r, t, b), s, a)
  {
    FieldsDetermine(WithField(WithField(r, s, a), t, b), WithField(WithField(r, t, b), s, a));
  }
}
