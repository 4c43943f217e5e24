/** The external calls the pages await. Each is a request to a language model, or a library
    routine, whose answer the pages cannot predict: it resolves with a value of the output
    schema's shape or rejects. Nothing is assumed about the value. */
module Flows {
  import opened Common
  import opened ResumeSchema
  import BuilderForm

  /** `AnalyzeUploadedResumeOutput['feedback']`. */
  datatype Feedback = Feedback(formatting: string, grammar: string, missingSkills: string, atsCompatibility: string)

  datatype AnalyzeOutput = AnalyzeOutput(feedback: Feedback)

  /** `EnhanceResumeOutput`. */
  datatype EnhanceOutput = EnhanceOutput(enhancedResume: Resume)

  /** `GenerateInterviewQuestionsOutput`. */
  datatype QuestionsOutput = QuestionsOutput(questions: seq<string>)

  /** `enhanceResume(values)`. */
  method EnhanceResume(input: BuilderForm.FormValues) returns (r: Settled<EnhanceOutput>)
  {
    r := *;
  }

  /** `analyzeUploadedResume({ resumeDataUri })`. */
  method AnalyzeUploadedResume(resumeDataUri: string) returns (r: Settled<AnalyzeOutput>)
  {
    r := *;
  }

  /** `enhanceAnalyzedResume({ resumeDataUri })`. */
  method EnhanceAnalyzedResume(resumeDataUri: string) returns (r: Settled<EnhanceOutput>)
  {
    r := *;
  }

  /** `generateInterviewQuestions({ jobRole, timeLeft })`. */
  method GenerateInterviewQuestions(jobRole: string, timeLeft: string) returns (r: Settled<QuestionsOutput>)
  {
    r := *;
  }

  /** `nanoid()`: some identifier; nothing here relies on it being fresh. */
  method NanoId() returns (id: string)
  {
    id := *;
  }
}
