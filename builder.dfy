/** The resume builder page: submit the form, have the resume enhanced, store it under a new id
    and open the editor on that id. */
module Builder {
  import opened Common
  import opened ResumeSchema
  import BuilderForm
  import Flows

  /** One stored resume: `{ content, formValues, createdAt }`. */
  datatype StoredResume = StoredResume(content: Resume, formValues: BuilderForm.FormValues, createdAt: string)

  /** The `'resumes'` entry of local storage, kept in memory: resume id to stored resume. */
  type Store = map<string, StoredResume>

  /** `{ ...prev, [id]: rec }`: `id` now maps to `rec` and every other entry is kept. An entry
      already stored under `id` would be replaced. */
  function Insert(prev: Store, id: string, rec: StoredResume): (next: Store)
    ensures id in next && next[id] == rec
    ensures next.Keys == prev.Keys + {id}
    ensures forall k :: k in prev && k != id ==> k in next && next[k] == prev[k]
  {
    prev[id := rec]
  }

  /** With an id not yet in use, the insert adds exactly one entry and loses none. */
  lemma InsertFresh(prev: Store, id: string, rec: StoredResume)
    requires id !in prev
    ensures |Insert(prev, id, rec)| == |prev| + 1
    ensures forall k :: k in prev ==> k in Insert(prev, id, rec) && Insert(prev, id, rec)[k] == prev[k]
  {
    assert Insert(prev, id, rec).Keys == prev.Keys + {id};
  }

  /** The editor route for a resume id: `/editor/${resumeId}`. */
  function EditorPath(id: string): (path: string)
    ensures |path| == |EditorPrefix| + |id| && path[..|EditorPrefix|] == EditorPrefix
    ensures path[|EditorPrefix|..] == id
  {
    EditorPrefix + id
  }

  const EditorPrefix: string := "/editor/"

  /** The route determines the id it was made from. */
  lemma EditorPathInjective(a: string, b: string)
    requires EditorPath(a) == EditorPath(b)
    ensures a == b
  {
    assert a == EditorPath(a)[|EditorPrefix|..];
  }

  const EnhancedToast: Toast := Toast(false, "Resume Enhanced!")
  const FailedToast: Toast := Toast(true, "An error occurred.")

  class BuilderPage {
    var isLoading: bool
    var storedResumes: Store
    /** The paths handed to `router.push`, oldest first. */
    var navigations: seq<string>
    var toasts: seq<Toast>

    constructor (stored: Store)
      ensures !isLoading && storedResumes == stored && navigations == [] && toasts == []
    {
      isLoading := false;
      storedResumes := stored;
      navigations := [];
      toasts := [];
    }

    /** `onSubmit` up to the awaited call: the page is loading while the enhancement is in flight. */
    method StartSubmit()
      modifies this
      ensures isLoading
      ensures storedResumes == old(storedResumes) && navigations == old(navigations) && toasts == old(toasts)
    {
      isLoading := true;
    }

    /** `onSubmit` after the awaited call settles, through its `finally`. On success the store
        gains the new resume under `resumeId`, keeping every other entry, and the editor is opened
        on that same id; on failure only an error toast is shown. Loading ends either way. The id
        (`nanoid()`) and the time (`new Date().toISOString()`) are supplied by the caller. */
    method CompleteSubmit(values: BuilderForm.FormValues, result: Settled<Flows.EnhanceOutput>, resumeId: string, now: string)
      modifies this
      ensures !isLoading
      ensures result.Resolved? ==>
        && storedResumes == Insert(old(storedResumes), resumeId,
                                   StoredResume(result.value.enhancedResume, values, now))
        && navigations == old(navigations) + [EditorPath(resumeId)]
        && toasts == old(toasts) + [EnhancedToast]
      ensures result.Rejected? ==>
        storedResumes == old(storedResumes) && navigations == old(navigations) && toasts == old(toasts) + [FailedToast]
    {
      if result.Resolved? {
        storedResumes := Insert(storedResumes, resumeId, StoredResume(result.value.enhancedResume, values, now));
        toasts := toasts + [EnhancedToast];
        navigations := navigations + [EditorPath(resumeId)];
      } else {
        toasts := toasts + [FailedToast];
      }
      isLoading := false;
    }

    /** `onSubmit` as a whole, returning how the enhancement settled and the id drawn for it: on
        failure nothing is stored and nobody navigates; on success exactly one resume is stored,
        the enhanced content with the submitted values, under the id the editor is opened on. */
    method OnSubmit(values: BuilderForm.FormValues, now: string)
      returns (result: Settled<Flows.EnhanceOutput>, resumeId: string)
      modifies this
      ensures !isLoading
      ensures result.Resolved? ==>
        && storedResumes == Insert(old(storedResumes), resumeId,
                                   StoredResume(result.value.enhancedResume, values, now))
        && navigations == old(navigations) + [EditorPath(resumeId)]
        && toasts == old(toasts) + [EnhancedToast]
      ensures result.Rejected? ==>
        storedResumes == old(storedResumes) && navigations == old(navigations) && toasts == old(toasts) + [FailedToast]
    {
      StartSubmit();
      result := Flows.EnhanceResume(values);
      resumeId := "";
      if result.Resolved? {
        resumeId := Flows.NanoId();
      }
      CompleteSubmit(values, result, resumeId, now);
    }

    /** `form.handleSubmit(onSubmit)`: the schema accepts every form of strings, so a submission
        always reaches `onSubmit`, with the outcome `OnSubmit` states for the parsed values;
        `submitted` is how the enhancement settled, and `resumeId` the id drawn for it. Input the
        schema refuses changes nothing. */
    method HandleSubmit(raw: BuilderForm.RawForm, now: string)
      returns (submitted: Option<Settled<Flows.EnhanceOutput>>, resumeId: string)
      modifies this
      ensures submitted.None? <==> BuilderForm.Parse(raw).None?
      ensures BuilderForm.Parse(raw).None? ==>
        isLoading == old(isLoading) && storedResumes == old(storedResumes) &&
        navigations == old(navigations) && toasts == old(toasts)
      ensures BuilderForm.Parse(raw).Some? ==> !isLoading
      ensures submitted.Some? && submitted.value.Resolved? ==>
        && storedResumes == Insert(old(storedResumes), resumeId,
                                   StoredResume(submitted.value.value.enhancedResume, BuilderForm.Parse(raw).value, now))
        && navigations == old(navigations) + [EditorPath(resumeId)]
        && toasts == old(toasts) + [EnhancedToast]
      ensures submitted.Some? && submitted.value.Rejected? ==>
        storedResumes == old(storedResumes) && navigations == old(navigations) && toasts == old(toasts) + [FailedToast]
    {
      var parsed := BuilderForm.Parse(raw);
      submitted := None;
      resumeId := "";
      if parsed.Some? {
        var result;
        result, resumeId := OnSubmit(parsed.value, now);
        submitted := Some(result);
      }
    }
  }
}
