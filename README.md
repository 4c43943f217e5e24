# Career App: the page logic of the resume builder, analyzer and interview preparation

The application is a set of web pages around language-model calls. The model here covers the
logic those pages run themselves. The enhanced resume is a record of seven strings. The
analyzer splits `personalInfo` into a name line and a ` | `-joined contact line. It edits one
field at a time, and its file, analyze and enhance handlers follow reset and guard rules. Its
PDF export strips and restores decoration classes. The builder inserts the enhanced resume into
the stored-resumes map under a new id and opens the editor on that id. The interview page
validates its form and runs a loading/questions state machine around one call.

Modules, one per source file or concern:

- `Common`: `Option` (undefined/null), `Settled` (a promise resolves or rejects), `Toast`.
- `Text`: `split` with a one-character separator, `join`, and a character-by-character
  reference for `split(c).join(sep)`.
- `ResumeSchema`: the seven-field record of `src/ai/schemas/resume-enhancer-schema.ts`, its keys,
  and the spread update `{ ...prev, [section]: content }`.
- `BuilderForm`: the builder's all-optional form schema.
- `Flows`: the model calls (`enhanceResume`, `analyzeUploadedResume`, `enhanceAnalyzedResume`,
  `generateInterviewQuestions`) and `nanoid`. Each is a method that nondeterministically
  resolves with a value of the output shape or rejects.
- `Dom`: elements with a `contenteditable` flag and a mutable class list, the preview container,
  `querySelectorAll('[contenteditable]')` and the rasterizer.
- `Analyzer`, `Builder`, `Interviews`: the three pages. Each page's React state is the set of
  fields of a class. Each handler is a method whose `ensures` gives the new value of every
  field. A handler that awaits an outside call returns how the call settled (and the builder's
  also returns the id it drew). Its `ensures` give the new state in terms of that result.

Four async handlers are split where they suspend: `handleAnalyze`, `handleEnhance` and the two
`onSubmit`s. The part before the `await` (or before the `FileReader` callback) is one method.
The continuation is another (`OnAnalyzeLoad`, `OnEnhanceLoad`, `CompleteSubmit`). This is how the model states what holds while a call is in
flight. For example, `isLoading` is true after `StartSubmit`. The builder's and interview
page's `OnSubmit` compose the two parts around the external call. `handleDownload` is one
method, `HandleDownload`, with the rasterizer call inside it (see "Left out").

Some behaviours of the code are easy to miss, and the model keeps them:

- The builder does not check that the id from `nanoid()` is not in use yet
  (src/app/page.tsx:60-63). An entry already stored under that id would be replaced
  (`Builder.Insert`).
- The export strips `p-1` (src/app/analyzer/page.tsx:116), but sections are rendered with
  `p-2` (src/app/analyzer/page.tsx:170). So the padding stays in the picture, and afterwards
  each section also has `p-1` (`Analyzer.ExportKeepsSectionPadding`,
  `Analyzer.RestoreIsNotInverse`).
- The export computes a vertical offset `y` and never uses it, so the image is placed at the
  top of the page (src/app/analyzer/page.tsx:131-133; see "Left out").
- A rejected analysis or enhancement inside the `onload` callback is not caught, so the page
  stays loading (src/app/analyzer/page.tsx:55-64 and 87-96; `OnAnalyzeLoad`, `OnEnhanceLoad`).

## Model

| member | source | states |
|---|---|---|
| `Text.Split` | src/app/analyzer/page.tsx:154 | `split('\n')` always yields at least one piece, so `[0]` is defined |
| `Text.SplitFirst` | src/app/analyzer/page.tsx:154 | the first piece is the prefix before the first separator, with no separator in it; it is the only piece exactly when the separator is absent |
| `Text.SplitPiecesFree` | src/app/analyzer/page.tsx:158 | no piece contains the separator |
| `Text.SplitTail` | src/app/analyzer/page.tsx:158 | with a separator present, the pieces after the first are the pieces of the text after the first separator (`slice(1)`) |
| `Text.JoinSplit` | src/app/analyzer/page.tsx:158 | `split(c).join(sep)` equals replacing every `c` by `sep`, an independent character-wise definition |
| `Text.SplitJoinRoundTrip` | src/app/analyzer/page.tsx:158 | joining the pieces with the separator gives back the original text |
| `Text.ReplaceRemoves` | src/app/analyzer/page.tsx:158 | after replacing `c` by a text without `c`, no `c` remains |
| `Analyzer.GetFullName` | src/app/analyzer/page.tsx:154 | `''` for undefined input; otherwise the result is the first line: a prefix of the input with no newline, followed by a newline or by the end (so `''` for empty input) |
| `Analyzer.FirstLineUnique` | src/app/analyzer/page.tsx:154 | the first-line property determines the result, so `GetFullName`'s contract specifies it completely |
| `Analyzer.ContactLine` | src/app/analyzer/page.tsx:158 | the lines after the first, joined by `ContactSeparator` (space, bar, space), contain no newline; they are `''` for a one-line text; with a newline they equal the rest of the text with each newline replaced by it |
| `Analyzer.GetContactInfo` | src/app/analyzer/page.tsx:156-159 | `''` for undefined, empty or one-line input; otherwise the text after the first newline with each newline turned into `ContactSeparator`; never contains a newline |
| `Analyzer.HeaderCoversPersonalInfo` | src/app/analyzer/page.tsx:283-285 | with a newline present, name line + newline + the contact line's source text make up all of `personalInfo`: the header drops nothing |
| `ResumeSchema.WithField` | src/app/analyzer/page.tsx:150 | the spread update sets the named field to the new content and leaves every other field unchanged |
| `ResumeSchema.FieldsDetermine` | src/ai/schemas/resume-enhancer-schema.ts:22-32 | a resume is determined by its seven fields |
| `ResumeSchema.WithFieldUnchanged` | src/app/analyzer/page.tsx:150 | writing back a field's current value leaves the resume equal to itself |
| `ResumeSchema.WithFieldLastWins` | src/app/analyzer/page.tsx:150 | two edits of the same field: the last one wins |
| `ResumeSchema.WithFieldCommute` | src/app/analyzer/page.tsx:150 | edits of different fields commute |
| `Analyzer.EditResume` | src/app/analyzer/page.tsx:150 | the updater yields null exactly for a null resume; otherwise exactly the chosen field changes |
| `Analyzer.RenderEditableSection` | src/app/analyzer/page.tsx:161-176 | renders nothing exactly when the content is undefined; otherwise a section with that title, key and content and the decorated classes |
| `Analyzer.PreviewSections` | src/app/analyzer/page.tsx:289-300 | the preview shows six editable sections in layout order; each shows its own field with the decorated classes; keys are distinct, cover every field but `personalInfo` and never include it |
| `Analyzer.EditShownSection` | src/app/analyzer/page.tsx:168 | editing one section on blur shows the new text there and leaves the other five sections identical |
| `Text.Join` | src/app/analyzer/page.tsx:158 | `join(sep)`: `""` for no pieces, the piece itself for one, otherwise the first piece, the separator and the join of the rest. What it computes is fixed by `Text.JoinSplit` (against `Replace`) and by the two round trips with `Split` |
| `Text.SplitOfJoin` | src/app/analyzer/page.tsx:158 | joining separator-free pieces with `c` and splitting at `c` gives back exactly those pieces; with `SplitJoinRoundTrip`, `split(c)` and `join(c)` are inverses |
| `Analyzer.AnalyzerPage.constructor` | src/app/analyzer/page.tsx:22-26 | initial state: not loading or enhancing; no file, feedback or resume |
| `Analyzer.AnalyzerPage.HandleFileChange` | src/app/analyzer/page.tsx:30-36 | a chosen file becomes `selectedFile` and clears feedback and resume; with no file list, or an empty one, nothing changes |
| `Analyzer.AnalyzerPage.HandleAnalyze` | src/app/analyzer/page.tsx:38-54 | with no file only the "No file selected" toast is added; otherwise loading starts and feedback and resume are cleared, nothing else |
| `Analyzer.AnalyzerPage.OnAnalyzeLoad` | src/app/analyzer/page.tsx:55-64 | returns how the analysis settled. If it resolved, the feedback is that result's feedback, the toast is added and loading ends, and nothing else changes. If it rejected, nothing changes |
| `Analyzer.AnalyzerPage.HandleEnhance` | src/app/analyzer/page.tsx:79-86 | with no file nothing changes; otherwise enhancing starts and the resume is cleared |
| `Analyzer.AnalyzerPage.OnEnhanceLoad` | src/app/analyzer/page.tsx:87-96 | returns how the enhancement settled. If it resolved, that result's resume becomes the editable one, the toast is added and enhancing ends, and nothing else changes. If it rejected, nothing changes |
| `Analyzer.AnalyzerPage.HandleContentChange` | src/app/analyzer/page.tsx:148-152 | the new state is the old with `EditResume` applied; with no resume it is a no-op |
| `Analyzer.RemoveDecorations` | src/app/analyzer/page.tsx:115-116 | every queried element's classes become the old ones minus the four decoration classes |
| `Analyzer.RestoreDecorations` | src/app/analyzer/page.tsx:144 | every queried element's classes become the old ones plus the four decoration classes |
| `Analyzer.Stripped` | src/app/analyzer/page.tsx:116 | the stripped class set shares nothing with the decorations and keeps every other class |
| `Analyzer.AnalyzerPage.HandleDownload` | src/app/analyzer/page.tsx:111-146 | no preview: nothing changes. Otherwise the saved picture shows each editable element stripped; on failure only the error toast is added. Either way every editable element ends with its old classes plus all four decorations, and other elements are untouched |
| `Analyzer.ExportKeepsSectionPadding` | src/app/analyzer/page.tsx:170 | a rendered section's `p-2` padding survives the strip, while its borders do not |
| `Analyzer.RestoreIsNotInverse` | src/app/analyzer/page.tsx:144 | after export a rendered section holds `p-1` besides `p-2`, so restoring is not the inverse of stripping |
| `Dom.QueryContentEditable` | src/app/analyzer/page.tsx:115 | the query returns exactly the editable elements, each once when the tree holds each once |
| `Dom.Html2Canvas` | src/app/analyzer/page.tsx:119 | a successful rasterization shows the elements as decorated at that moment |
| `BuilderForm.Parse` | src/app/page.tsx:19-30 | the schema accepts an input exactly when no field holds a non-string |
| `BuilderForm.Present` | src/app/page.tsx:19-30 | any mix of present and absent string fields is accepted and parses back to itself |
| `BuilderForm.ParseInverse` | src/app/page.tsx:19-30 | whatever is accepted is the presentation of its parse: nothing is lost |
| `BuilderForm.DefaultsAccepted` | src/app/page.tsx:42-52 | the default values pass the schema |
| `Builder.Insert` | src/app/page.tsx:62-69 | the new id maps to the new record and the keys grow by that id; every other entry is kept |
| `Builder.InsertFresh` | src/app/page.tsx:62-63 | with an unused id the store grows by exactly one entry and loses none |
| `Builder.EditorPath` | src/app/page.tsx:75 | the route is `/editor/` followed by the id |
| `Builder.EditorPathInjective` | src/app/page.tsx:75 | distinct ids give distinct routes |
| `Builder.BuilderPage.constructor` | src/app/page.tsx:37-38 | not loading; the store is whatever local storage holds; no navigation and no toast yet |
| `Builder.BuilderPage.StartSubmit` | src/app/page.tsx:56 | loading is true while the enhancement is in flight; nothing else changes |
| `Builder.BuilderPage.CompleteSubmit` | src/app/page.tsx:59-86 | success: the store gains a record (content = `enhancedResume`, form values as submitted, the timestamp) under the id, and the editor route uses that id. Failure: store and navigation unchanged, error toast. Loading ends either way |
| `Builder.BuilderPage.OnSubmit` | src/app/page.tsx:55-87 | returns how the enhancement settled and the drawn id; loading ends. If it rejected, nothing is stored, nobody navigates and the error toast is added. If it resolved, the record of the enhanced resume, the submitted values and the time is inserted under that id, the editor route for that id is appended, and the "Resume Enhanced!" toast is added |
| `Builder.BuilderPage.HandleSubmit` | src/app/page.tsx:103 | something is submitted exactly when the schema accepts the input. Refused input changes nothing. Accepted input has `OnSubmit`'s outcome for the parsed values, stated in terms of the returned result and id |
| `Interviews.Validate` | src/app/interviews/page.tsx:17-20 | no issues iff `jobRole` has at least 2 characters and `timeLeft` at least 1; each rule's issue is reported exactly when that rule fails |
| `Interviews.DefaultsFailOnlyOnJobRole` | src/app/interviews/page.tsx:31-34 | the defaults fail on `jobRole` alone |
| `Interviews.SelectableTimesValid` | src/app/interviews/page.tsx:94-97 | every select option satisfies the `timeLeft` rule and the default is one of them |
| `Interviews.InterviewPage.constructor` | src/app/interviews/page.tsx:26-27 | not loading and no questions |
| `Interviews.InterviewPage.StartSubmit` | src/app/interviews/page.tsx:38-39 | loading starts and the questions are cleared before the call |
| `Interviews.InterviewPage.CompleteSubmit` | src/app/interviews/page.tsx:41-56 | on success the questions are exactly the returned list, in order; on failure they stay empty; loading ends either way |
| `Interviews.InterviewPage.OnSubmit` | src/app/interviews/page.tsx:37-57 | returns how the call settled; loading ends. If it resolved, the questions are exactly the returned list and the success toast is added. If it rejected, the list is empty and the error toast is added |
| `Interviews.InterviewPage.HandleSubmit` | src/app/interviews/page.tsx:74 | returns the validation issues, and a settled call exactly when there are none. Refused values leave the page unchanged. Accepted ones end loading, and then either the questions are the returned list with the success toast, or the list is empty with the error toast |

## Left out

- The model calls themselves (`src/ai/flows/*.ts`). They are foreign prompt executions. Each is
  a nondeterministic method that resolves with a value of the output shape or rejects. The
  definition of `enhanceAnalyzedResume` is not part of this model.
  src/ai/flows/analyze-uploaded-resume.ts exports no `enhanceAnalyzedResume`, so the import at
  src/app/analyzer/page.tsx:4 has nothing to bind to, and as these files stand the call at
  src/app/analyzer/page.tsx:89 cannot succeed. `Flows.EnhanceAnalyzedResume` and the resolved
  branch of `OnEnhanceLoad` assume a definition that is not in these files.
- The `FileReader` mechanics. The data URI that `onload` receives is a parameter. `onerror`
  throws inside a callback, outside the `try`, so it changes no state. This leaves the page in
  the same state as the rejection case. The `catch` blocks of `handleAnalyze` and
  `handleEnhance` catch only synchronous failures of starting the read, so they are not modelled.
- The `exampleResume` file reader of the builder. It is asynchronous I/O.
- The `useLocalStorage` hook. The store is an in-memory map, and React's deferred state updates
  are applied at once.
- PDF page geometry (the ratio, width, height and the unused `y`). It is floating-point layout
  done by `html2canvas`/`jsPDF`. The rasterizer, page assembly and `pdf.save` are one external
  step that succeeds or rejects.
- `atsScore`, which the feedback schema does not have, and all markup, toasts' descriptions,
  routing, sidebar and layout.
- `Dom.Element`: class lists are sets. The order of classes in a `DOMTokenList` is not modelled.
- `Interviews.Validate`: lengths count Dafny characters, which are Unicode scalar values, while
  zod counts UTF-16 code units. The two differ for characters outside the Basic Multilingual
  Plane.
- `Builder.BuilderPage.CompleteSubmit`: the id from `nanoid()` and the time from
  `new Date().toISOString()` are parameters. `OnSubmit` draws the id from `Flows.NanoId`.
- `Analyzer.AnalyzerPage.HandleDownload`: no other event runs while the rasterizer is pending.
  A re-render or edit during that time, which could reset a section's classes, is not modelled.
