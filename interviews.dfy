/** The interview preparation page: validate the job role and the time left, ask for questions
    and show them. */
module Interviews {
  import opened Common
  import Flows

  /** `FormValues = z.infer<typeof formSchema>`. */
  datatype FormValues = FormValues(jobRole: string, timeLeft: string)

  datatype FormField = JobRole | TimeLeft

  /** One failed rule, reported against its field with the schema's message. */
  datatype Issue = Issue(field: FormField, message: string)

  const JobRoleMessage: string := "Please enter a valid job role."
  const TimeLeftMessage: string := "Please select the time left."

  /** `formSchema`: `jobRole` needs at least 2 characters and `timeLeft` at least 1. The issues
      come in field order, one per failed rule. */
  function Validate(v: FormValues): (issues: seq<Issue>)
    ensures issues == [] <==> |v.jobRole| >= 2 && |v.timeLeft| >= 1
    ensures Issue(JobRole, JobRoleMessage) in issues <==> |v.jobRole| < 2
    ensures Issue(TimeLeft, TimeLeftMessage) in issues <==> |v.timeLeft| < 1
    ensures forall i :: 0 <= i < |issues| ==> issues[i] in {Issue(JobRole, JobRoleMessage), Issue(TimeLeft, TimeLeftMessage)}
    ensures |issues| <= 2
  {
    (if |v.jobRole| < 2 then [Issue(JobRole, JobRoleMessage)] else []) +
    (if |v.timeLeft| < 1 then [Issue(TimeLeft, TimeLeftMessage)] else [])
  }

  /** The form's `defaultValues`. */
  const DefaultValues: FormValues := FormValues("", "1 week")

  /** The values of the time-left select. */
  const TimeLeftOptions: seq<string> := ["3 days", "1 week", "2 weeks", "1 month"]

  /** The untouched form is refused for its job role alone: the default time left is fine. */
  lemma DefaultsFailOnlyOnJobRole()
    ensures Validate(DefaultValues) == [Issue(JobRole, JobRoleMessage)]
  {
  }

  /** Every option of the select satisfies the time-left rule, the default is one of them, and so
      any job role of two or more characters with a selected option is accepted. */
  lemma SelectableTimesValid(jobRole: string, i: nat)
    requires i < |TimeLeftOptions|
    requires |jobRole| >= 2
    ensures Validate(FormValues(jobRole, TimeLeftOptions[i])) == []
    ensures DefaultValues.timeLeft in TimeLeftOptions
  {
    assert DefaultValues.timeLeft == TimeLeftOptions[1];
  }

  const GeneratedToast: Toast := Toast(false, "Questions Generated!")
  const FailedToast: Toast := Toast(true, "An error occurred.")

  class InterviewPage {
    var isLoading: bool
    var questions: seq<string>
    var toasts: seq<Toast>

    constructor ()
      ensures !isLoading && questions == [] && toasts == []
    {
      isLoading := false;
      questions := [];
      toasts := [];
    }

    /** `onSubmit` up to the awaited call: loading, and the previous questions are gone. */
    method StartSubmit()
      modifies this
      ensures isLoading && questions == [] && toasts == old(toasts)
    {
      isLoading := true;
      questions := [];
    }

    /** `onSubmit` after the call settles, through its `finally`: the questions are exactly the
        returned list, in order, or stay empty on failure; loading ends either way. */
    method CompleteSubmit(result: Settled<Flows.QuestionsOutput>)
      requires questions == []
      modifies this
      ensures !isLoading
      ensures result.Resolved? ==> questions == result.value.questions && toasts == old(toasts) + [GeneratedToast]
      ensures result.Rejected? ==> questions == [] && toasts == old(toasts) + [FailedToast]
    {
      if result.Resolved? {
        questions := result.value.questions;
        toasts := toasts + [GeneratedToast];
      } else {
        toasts := toasts + [FailedToast];
      }
      isLoading := false;
    }

    /** `onSubmit` as a whole, returning how the call settled: loading ends, and either the
        returned questions are shown with a success toast or the list is empty with an error toast. */
    method OnSubmit(values: FormValues) returns (result: Settled<Flows.QuestionsOutput>)
      modifies this
      ensures !isLoading
      ensures result.Resolved? ==> questions == result.value.questions && toasts == old(toasts) + [GeneratedToast]
      ensures result.Rejected? ==> questions == [] && toasts == old(toasts) + [FailedToast]
    {
      StartSubmit();
      result := Flows.GenerateInterviewQuestions(values.jobRole, values.timeLeft);
      CompleteSubmit(result);
    }

    /** `form.handleSubmit(onSubmit)`: values the schema refuses never reach `onSubmit` and leave
        the page as it was; the issues are what the form then shows. Accepted values are submitted,
        and `submitted` is how the call settled. */
    method HandleSubmit(values: FormValues) returns (issues: seq<Issue>, submitted: Option<Settled<Flows.QuestionsOutput>>)
      modifies this
      ensures issues == Validate(values)
      ensures submitted.None? <==> issues != []
      ensures issues != [] ==> isLoading == old(isLoading) && questions == old(questions) && toasts == old(toasts)
      ensures issues == [] ==> !isLoading
      ensures submitted.Some? && submitted.value.Resolved? ==>
        questions == submitted.value.value.questions && toasts == old(toasts) + [GeneratedToast]
      ensures submitted.Some? && submitted.value.Rejected? ==>
        questions == [] && toasts == old(toasts) + [FailedToast]
    {
      issues := Validate(values);
      submitted := None;
      if issues == [] {
        var result := OnSubmit(values);
        submitted := Some(result);
      }
    }
  }
}
