/** The resume analyzer page: upload a file, ask for feedback, ask for an enhanced resume,
    edit it section by section and export it as a PDF. */
module Analyzer {
  import opened Common
  import opened ResumeSchema
  import Text
  import Flows
  import Dom

  // ---------------------------------------------------------------------------------------------
  // The header: name line and contact line of `personalInfo`

  /** `line` is the text of `s` before its first newline (all of `s` when it has none). */
  predicate IsFirstLine(line: string, s: string)
  {
    && |line| <= |s|
    && s[..|line|] == line
    && '\n' !in line
    && (|line| == |s| || s[|line|] == '\n')
  }

  /** A text has exactly one first line. */
  lemma FirstLineUnique(a: string, b: string, s: string)
    requires IsFirstLine(a, s) && IsFirstLine(b, s)
    ensures a == b
  {
  }

  /** `getFullName`: empty for an absent or empty text, otherwise the text before the first newline. */
  function GetFullName(fullName: Option<string>): (r: string)
    ensures fullName.None? ==> r == ""
    ensures fullName.Some? ==> IsFirstLine(r, fullName.value)
  {
    if fullName.None? || fullName.value == "" then ""
    else
      Text.SplitFirst(fullName.value, '\n');
      Text.Split(fullName.value, '\n')[0]
  }

  const ContactSeparator: string := " | "

  /** What the contact line is made of: the lines after the first, newline by newline turned into
      " | ", and stays free of newlines. */
  lemma ContactLine(s: string)
    ensures '\n' !in Text.Join(Text.Split(s, '\n')[1..], ContactSeparator)
    ensures '\n' !in s ==> Text.Join(Text.Split(s, '\n')[1..], ContactSeparator) == ""
    ensures '\n' in s ==>
      |Text.Split(s, '\n')[0]| < |s| &&
      Text.Join(Text.Split(s, '\n')[1..], ContactSeparator)
        == Text.Replace(s[|Text.Split(s, '\n')[0]| + 1..], '\n', ContactSeparator)
  {
    var parts := Text.Split(s, '\n');
    Text.SplitFirst(s, '\n');
    if '\n' in s {
      Text.SplitTail(s, '\n');
      var rest := s[|parts[0]| + 1..];
      Text.JoinSplit(rest, '\n', ContactSeparator);
      Text.ReplaceRemoves(rest, '\n', ContactSeparator);
    } else {
      assert parts[1..] == [];
    }
  }

  /** `getContactInfo`: empty for an absent, empty or one-line text; otherwise the lines after the
      first joined by " | ". The result never contains a newline. */
  function GetContactInfo(personalInfo: Option<string>): (r: string)
    ensures '\n' !in r
    ensures personalInfo.None? ==> r == ""
    ensures personalInfo.Some? && '\n' !in personalInfo.value ==> r == ""
    ensures personalInfo.Some? && '\n' in personalInfo.value ==>
      |GetFullName(personalInfo)| < |personalInfo.value| &&
      r == Text.Replace(personalInfo.value[|GetFullName(personalInfo)| + 1..], '\n', ContactSeparator)
  {
    if personalInfo.None? || personalInfo.value == "" then ""
    else
      var s := personalInfo.value;
      ContactLine(s);
      Text.Join(Text.Split(s, '\n')[1..], ContactSeparator)
  }

  /** With at least one newline, the name line, a newline and the contact line's source text make
      up the whole of `personalInfo`. */
  lemma HeaderCoversPersonalInfo(s: string)
    requires '\n' in s
    ensures s == GetFullName(Some(s)) + "\n" + s[|GetFullName(Some(s))| + 1..]
  {
    var n := GetFullName(Some(s));
    assert s[..|n|] == n;
    assert s == s[..|n|] + [s[|n|]] + s[|n| + 1..];
  }

  // ---------------------------------------------------------------------------------------------
  // The editable preview

  /** The `className` every editable section is rendered with. */
  const SectionClasses: set<string> := {
    "text-xs", "text-gray-700", "whitespace-pre-wrap", "border", "border-dashed", "border-gray-400",
    "p-2", "rounded-md", "focus:outline-none", "focus:ring-1", "focus:ring-primary", "leading-relaxed"
  }

  /** The classes `handleDownload` removes before rasterizing and adds back afterwards. */
  const Decorations: set<string> := {"border", "border-dashed", "border-gray-400", "p-1"}

  /** One rendered editable section. */
  datatype SectionView = SectionView(title: string, key: Section, content: string, classes: set<string>)

  /** `renderEditableSection`: nothing for an undefined field, otherwise a section showing it. */
  function RenderEditableSection(title: string, content: Option<string>, key: Section): (v: Option<SectionView>)
    ensures v.None? <==> content.None?
    ensures v.Some? ==>
      v.value.title == title && v.value.key == key && v.value.content == content.value && v.value.classes == SectionClasses
  {
    if content.None? then None else Some(SectionView(title, key, content.value, SectionClasses))
  }

  /** The order in which the preview lays out its editable sections: the main column, then the aside. */
  const PreviewOrder: seq<Section> := [AboutMe, Projects, Achievements, Education, Skills, SoftSkills]

  /** The headings of those sections, in the same order. */
  const PreviewTitles: seq<string> :=
    ["About Me", "Projects", "Achievements", "Education", "Technical Skills", "Soft Skills"]

  /** The editable sections of the preview of `r`. Every field except `personalInfo`, which only
      feeds the header, is shown exactly once, with its own content and the decorated classes. */
  function PreviewSections(r: Resume): (views: seq<SectionView>)
    ensures |views| == |PreviewOrder|
    ensures forall i :: 0 <= i < |views| ==>
      && views[i].key == PreviewOrder[i] && views[i].title == PreviewTitles[i]
      && views[i].content == Field(r, views[i].key) && views[i].classes == SectionClasses
    ensures forall i, j :: 0 <= i < j < |views| ==> views[i].key != views[j].key
    ensures forall i :: 0 <= i < |views| ==> views[i].key != PersonalInfo
    ensures forall s :: s != PersonalInfo ==> views[PreviewIndex(s)].key == s
  {
    var views := [
      RenderEditableSection("About Me", Some(r.aboutMe), AboutMe).value,
      RenderEditableSection("Projects", Some(r.projects), Projects).value,
      RenderEditableSection("Achievements", Some(r.achievements), Achievements).value,
      RenderEditableSection("Education", Some(r.education), Education).value,
      RenderEditableSection("Technical Skills", Some(r.skills), Skills).value,
      RenderEditableSection("Soft Skills", Some(r.softSkills), SoftSkills).value
    ];
    views
  }

  /** Where a section's key appears in `PreviewOrder`. */
  function PreviewIndex(s: Section): (i: nat)
    requires s != PersonalInfo
    ensures i < |PreviewOrder| && PreviewOrder[i] == s
  {
    match s
    case AboutMe => 0
    case Projects => 1
    case Achievements => 2
    case Education => 3
    case Skills => 4
    case SoftSkills => 5
  }

  /** Editing the `i`-th section on blur (`handleContentChange(sectionKey, innerText)`) shows the
      new text in that section and leaves every other section as it was. */
  lemma EditShownSection(r: Resume, i: nat, c: string)
    requires i < |PreviewOrder|
    ensures var after := PreviewSections(WithField(r, PreviewOrder[i], c));
      after[i].content == c &&
      forall j :: 0 <= j < |after| && j != i ==> after[j] == PreviewSections(r)[j]
  {
  }

  // ---------------------------------------------------------------------------------------------
  // The class bookkeeping of the PDF export

  /** `elements.forEach(el => el.classList.remove(...Decorations))`. */
  method RemoveDecorations(els: seq<Dom.Element>)
    requires Dom.Distinct(els)
    modifies set e | e in els
    ensures forall i :: 0 <= i < |els| ==> els[i].classList == old(els[i].classList) - Decorations
  {
    var k := 0;
    while k < |els|
      invariant 0 <= k <= |els|
      invariant forall i :: 0 <= i < k ==> els[i].classList == old(els[i].classList) - Decorations
      invariant forall i :: k <= i < |els| ==> els[i].classList == old(els[i].classList)
    {
      els[k].classList := els[k].classList - Decorations;
      k := k + 1;
    }
  }

  /** `elements.forEach(el => el.classList.add(...Decorations))`. */
  method RestoreDecorations(els: seq<Dom.Element>)
    requires Dom.Distinct(els)
    modifies set e | e in els
    ensures forall i :: 0 <= i < |els| ==> els[i].classList == old(els[i].classList) + Decorations
  {
    var k := 0;
    while k < |els|
      invariant 0 <= k <= |els|
      invariant forall i :: 0 <= i < k ==> els[i].classList == old(els[i].classList) + Decorations
      invariant forall i :: k <= i < |els| ==> els[i].classList == old(els[i].classList)
    {
      els[k].classList := els[k].classList + Decorations;
      k := k + 1;
    }
  }

  /** What an editable section's classes look like in the exported picture, and afterwards. */
  function Stripped(classes: set<string>): (r: set<string>)
    ensures r !! Decorations && r <= classes
    ensures forall c :: c in classes && c !in Decorations ==> c in r
  {
    classes - Decorations
  }

  /** The export does not hide all of a rendered section's decoration: its padding class is
      `p-2`, which is not among the removed classes, so it is still in the picture. */
  lemma ExportKeepsSectionPadding()
    ensures "p-2" in Stripped(SectionClasses)
    ensures "border" in SectionClasses && "border" !in Stripped(SectionClasses)
  {
  }

  /** Putting the classes back is not the inverse of taking them off: a rendered section ends up
      with `p-1`, which it never had, beside its `p-2`. */
  lemma RestoreIsNotInverse()
    ensures Stripped(SectionClasses) + Decorations == SectionClasses + {"p-1"}
    ensures Stripped(SectionClasses) + Decorations != SectionClasses
  {
    assert "p-1" !in SectionClasses;
    assert "p-1" in Stripped(SectionClasses) + Decorations;
  }

  // ---------------------------------------------------------------------------------------------
  // The page

  /** A file chosen in the file input; only its identity matters here. */
  datatype File = File(name: string)

  /** The page's React state and the toasts it has raised. */
  datatype PageState = PageState(
    isLoading: bool,
    isEnhancing: bool,
    selectedFile: Option<File>,
    analysisResult: Option<Flows.Feedback>,
    editableResume: Option<Resume>,
    toasts: seq<Toast>)

  const InitialState: PageState := PageState(false, false, None, None, None, [])

  const NoFileToast: Toast := Toast(true, "No file selected")
  const AnalysisCompleteToast: Toast := Toast(false, "Analysis Complete!")
  const ResumeEnhancedToast: Toast := Toast(false, "Resume Enhanced!")
  const PdfFailedToast: Toast := Toast(true, "PDF Generation Failed")

  /** The resume with one field set, or nothing when there is no resume: the updater
      `prev => prev ? { ...prev, [section]: content } : null`. */
  function EditResume(prev: Option<Resume>, section: Section, content: string): (r: Option<Resume>)
    ensures r.None? <==> prev.None?
    ensures r.Some? ==> Field(r.value, section) == content
    ensures r.Some? ==> forall t :: t != section ==> Field(r.value, t) == Field(prev.value, t)
  {
    if prev.None? then None else Some(WithField(prev.value, section, content))
  }

  class AnalyzerPage {
    var isLoading: bool
    var isEnhancing: bool
    var selectedFile: Option<File>
    var analysisResult: Option<Flows.Feedback>
    var editableResume: Option<Resume>
    var toasts: seq<Toast>
    /** The pictures written out by `pdf.save`, one per successful export. */
    var downloads: seq<Dom.Canvas>

    function State(): PageState
      reads this
    {
      PageState(isLoading, isEnhancing, selectedFile, analysisResult, editableResume, toasts)
    }

    constructor ()
      ensures State() == InitialState && downloads == []
    {
      isLoading, isEnhancing := false, false;
      selectedFile, analysisResult, editableResume := None, None, None;
      toasts, downloads := [], [];
    }

    /** `handleFileChange`: a chosen file becomes the selected one and discards the feedback and
        the resume of the previous file; without a file nothing changes. */
    method HandleFileChange(files: Option<seq<File>>)
      modifies this
      ensures if files.Some? && |files.value| > 0
        then State() == old(State()).(selectedFile := Some(files.value[0]), analysisResult := None, editableResume := None)
        else State() == old(State())
      ensures downloads == old(downloads)
    {
      if files.Some? && |files.value| > 0 {
        selectedFile := Some(files.value[0]);
        analysisResult := None;
        editableResume := None;
      }
    }

    /** `handleAnalyze`, up to the start of the file read: without a file only a toast is shown;
        otherwise the page is loading and the old feedback and resume are cleared. */
    method HandleAnalyze()
      modifies this
      ensures old(selectedFile).None? ==> State() == old(State()).(toasts := old(toasts) + [NoFileToast])
      ensures old(selectedFile).Some? ==>
        State() == old(State()).(isLoading := true, analysisResult := None, editableResume := None)
      ensures downloads == old(downloads)
    {
      if selectedFile.None? {
        toasts := toasts + [NoFileToast];
        return;
      }
      isLoading := true;
      analysisResult := None;
      editableResume := None;
    }

    /** The `reader.onload` callback of `handleAnalyze`, returning how the analysis settled. If it
        resolves, its feedback is shown and loading ends; if it rejects, nothing is caught and the
        page stays as it was, still loading. */
    method OnAnalyzeLoad(resumeDataUri: string) returns (result: Settled<Flows.AnalyzeOutput>)
      modifies this
      ensures result.Resolved? ==>
        State() == old(State()).(analysisResult := Some(result.value.feedback), isLoading := false,
                                 toasts := old(toasts) + [AnalysisCompleteToast])
      ensures result.Rejected? ==> State() == old(State())
      ensures downloads == old(downloads)
    {
      result := Flows.AnalyzeUploadedResume(resumeDataUri);
      if result.Resolved? {
        analysisResult := Some(result.value.feedback);
        toasts := toasts + [AnalysisCompleteToast];
        isLoading := false;
      }
    }

    /** `handleEnhance`, up to the start of the file read: without a file it returns at once;
        otherwise the page is enhancing and the old resume is cleared. */
    method HandleEnhance()
      modifies this
      ensures old(selectedFile).None? ==> State() == old(State())
      ensures old(selectedFile).Some? ==> State() == old(State()).(isEnhancing := true, editableResume := None)
      ensures downloads == old(downloads)
    {
      if selectedFile.None? {
        return;
      }
      isEnhancing := true;
      editableResume := None;
    }

    /** The `reader.onload` callback of `handleEnhance`, returning how the enhancement settled: a
        resolved enhancement becomes the editable resume and enhancing ends; a rejection leaves the
        page as it was, still enhancing. */
    method OnEnhanceLoad(resumeDataUri: string) returns (result: Settled<Flows.EnhanceOutput>)
      modifies this
      ensures result.Resolved? ==>
        State() == old(State()).(editableResume := Some(result.value.enhancedResume), isEnhancing := false,
                                 toasts := old(toasts) + [ResumeEnhancedToast])
      ensures result.Rejected? ==> State() == old(State())
      ensures downloads == old(downloads)
    {
      result := Flows.EnhanceAnalyzedResume(resumeDataUri);
      if result.Resolved? {
        editableResume := Some(result.value.enhancedResume);
        toasts := toasts + [ResumeEnhancedToast];
        isEnhancing := false;
      }
    }

    /** `handleContentChange`: sets exactly one field of the editable resume; with no resume it
        does nothing. */
    method HandleContentChange(section: Section, content: string)
      modifies this
      ensures State() == old(State()).(editableResume := EditResume(old(editableResume), section, content))
      ensures old(editableResume).None? ==> State() == old(State())
      ensures downloads == old(downloads)
    {
      if editableResume.Some? {
        editableResume := EditResume(editableResume, section, content);
      }
    }

    /** `handleDownload`: without a preview it returns at once. Otherwise the editable elements lose
        their decoration classes, the preview is rasterized and saved (or a toast reports the
        failure), and in either case every editable element then holds all decoration classes
        again in addition to whatever it had before. */
    method HandleDownload(input: Dom.Preview?)
      requires input != null ==> input.Valid()
      modifies this, set e | input != null && e in Dom.QueryContentEditable(input.descendants)
      ensures State() == old(State()).(toasts := toasts)
      ensures input == null ==> toasts == old(toasts) && downloads == old(downloads)
      ensures input != null ==>
        forall i :: 0 <= i < |input.descendants| ==>
          input.descendants[i].classList ==
            if input.descendants[i].contentEditable
            then old(input.descendants[i].classList) + Decorations
            else old(input.descendants[i].classList)
      ensures input != null ==>
        (toasts == old(toasts) &&
         |downloads| == |old(downloads)| + 1 && downloads[..|old(downloads)|] == old(downloads) &&
         |downloads[|old(downloads)|].regions| == |input.descendants| &&
         forall i :: 0 <= i < |input.descendants| ==>
           downloads[|old(downloads)|].regions[i] ==
             if input.descendants[i].contentEditable
             then Stripped(old(input.descendants[i].classList))
             else old(input.descendants[i].classList))
        || (toasts == old(toasts) + [PdfFailedToast] && downloads == old(downloads))
    {
      if input == null {
        return;
      }
      var elements := Dom.QueryContentEditable(input.descendants);
      RemoveDecorations(elements);
      var canvas := Dom.Html2Canvas(input);
      if canvas.Resolved? {
        downloads := downloads + [canvas.value];
      } else {
        toasts := toasts + [PdfFailedToast];
      }
      RestoreDecorations(elements);
    }
  }
}
