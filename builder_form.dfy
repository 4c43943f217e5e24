/** The builder page's form schema: ten fields, each `z.string().optional()`. */
module BuilderForm {
  import opened Common

  /** What a form field can hold before validation: nothing, a string, or a value of another type. */
  datatype RawValue = Missing | Text(text: string) | NotString

  /** The form's input, field by field, before validation. */
  datatype RawForm = RawForm(
    personalInfo: RawValue,
    aboutMe: RawValue,
    education: RawValue,
    skills: RawValue,
    softSkills: RawValue,
    projects: RawValue,
    achievements: RawValue,
    githubLink: RawValue,
    linkedinProfile: RawValue,
    exampleResume: RawValue)

  /** `FormValues = z.infer<typeof formSchema>`: every field is an optional string. */
  datatype FormValues = FormValues(
    personalInfo: Option<string>,
    aboutMe: Option<string>,
    education: Option<string>,
    skills: Option<string>,
    softSkills: Option<string>,
    projects: Option<string>,
    achievements: Option<string>,
    githubLink: Option<string>,
    linkedinProfile: Option<string>,
    exampleResume: Option<string>)

  /** The value one `z.string().optional()` field parses to. */
  function FieldOf(v: RawValue): Option<string>
  {
    match v
    case Text(s) => Some(s)
    case _ => None
  }

  /** The form's `defaultValues`: nine empty strings; `exampleResume` is not given. */
  const DefaultValues: FormValues :=
    FormValues(Some(""), Some(""), Some(""), Some(""), Some(""), Some(""), Some(""), Some(""), Some(""), None)

  /** `formSchema.safeParse`: fails exactly when some field holds a value that is not a string;
      a missing field parses to `undefined` and a string to itself. */
  function Parse(raw: RawForm): (r: Option<FormValues>)
    ensures r.Some? <==>
      raw.personalInfo != NotString && raw.aboutMe != NotString && raw.education != NotString &&
      raw.skills != NotString && raw.softSkills != NotString && raw.projects != NotString &&
      raw.achievements != NotString && raw.githubLink != NotString &&
      raw.linkedinProfile != NotString && raw.exampleResume != NotString
  {
    if NotString in {raw.personalInfo, raw.aboutMe, raw.education, raw.skills, raw.softSkills,
                     raw.projects, raw.achievements, raw.githubLink, raw.linkedinProfile, raw.exampleResume}
    then None
    else Some(FormValues(
      FieldOf(raw.personalInfo), FieldOf(raw.aboutMe), FieldOf(raw.education), FieldOf(raw.skills),
      FieldOf(raw.softSkills), FieldOf(raw.projects), FieldOf(raw.achievements),
      FieldOf(raw.githubLink), FieldOf(raw.linkedinProfile), FieldOf(raw.exampleResume)))
  }

  /** The raw form a value presents to the schema: absent fields are missing, present ones are strings. */
  function RawOf(v: Option<string>): (raw: RawValue)
    ensures raw != NotString
    ensures FieldOf(raw) == v
  {
    match v
    case Some(s) => Text(s)
    case None => Missing
  }

  /** Every field is optional, so any combination of present and absent strings is accepted
      and parses back to itself. */
  function Present(v: FormValues): (raw: RawForm)
    ensures Parse(raw) == Some(v)
  {
    RawForm(RawOf(v.personalInfo), RawOf(v.aboutMe), RawOf(v.education), RawOf(v.skills),
            RawOf(v.softSkills), RawOf(v.projects), RawOf(v.achievements), RawOf(v.githubLink),
            RawOf(v.linkedinProfile), RawOf(v.exampleResume))
  }

  /** The other round trip: whatever the schema accepts is exactly the presentation of what it
      parses to, so parsing loses nothing. */
  lemma ParseInverse(raw: RawForm, v: FormValues)
    requires Parse(raw) == Some(v)
    ensures Present(v) == raw
  {
  }

  /** The default values pass the schema unchanged. */
  lemma DefaultsAccepted()
    ensures Parse(Present(DefaultValues)) == Some(DefaultValues)
  {
  }
}
