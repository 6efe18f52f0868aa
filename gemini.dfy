/** `query_gemini` (app.py:42-69): the prompt sent to the generator, the
    trimming of a successful response and the classification of a failed
    call into one of four fixed user-facing messages.  The call to the
    generator itself is outside the model: its outcome arrives as a
    `GenResult`. */
module Gemini {
  import opened PyStr

  /** What `generate_content` produced: the response text, or the text of
      the exception raised while producing or reading it. */
  datatype GenResult = Ok(text: string) | Err(detail: string)

  const PromptTemplate := "Answer this question concisely in 2-3 sentences: "

  /** The three marker prefixes of failure messages. */
  const CrossMark := "\U{274C}"
  const AlarmClock := "\U{23F0}"
  const WarningSign := "\U{26A0}\U{FE0F}"

  // Split so that its leading characters are a short literal, which the
  // verifier can index when ClassifyOrder tells the messages apart.
  const InvalidKeyMessage := CrossMark + " Invalid API key." + " Please check your GEMINI_API_KEY in .env file."
  const RateLimitMessage := AlarmClock + " Rate limit exceeded. Please wait a moment and try again."
  const SafetyMessage := WarningSign + " Response blocked by safety filters. Try rephrasing your question."
  const ErrorPrefix := CrossMark + " Error: "

  predicate HasFailureMarker(s: string) {
    StartsWith(s, CrossMark) || StartsWith(s, AlarmClock) || StartsWith(s, WarningSign)
  }

  /** The f-string prompt: the fixed instruction followed by the question
      exactly as the user typed it. */
  function Prompt(question: string): (p: string)
    ensures StartsWith(p, PromptTemplate)
    ensures p[|PromptTemplate|..] == question
  {
    PromptTemplate + question
  }

  /** The categories a failure detail is sorted into. */
  datatype Failure = InvalidKey | RateLimited | SafetyBlocked | Unclassified(detail: string)

  predicate NamesBadKey(detail: string) {
    Contains(detail, "API_KEY_INVALID") || Contains(detail, "401")
  }

  /** "quota" is looked for in the lowercased detail, "429" in the detail. */
  predicate NamesRateLimit(detail: string) {
    Contains(Lower(detail), "quota") || Contains(detail, "429")
  }

  predicate NamesSafety(detail: string) {
    Contains(detail, "SAFETY")
  }

  /** The `if`/`elif` chain: the first test that matches decides. */
  function Categorize(detail: string): Failure {
    if NamesBadKey(detail) then InvalidKey
    else if NamesRateLimit(detail) then RateLimited
    else if NamesSafety(detail) then SafetyBlocked
    else Unclassified(detail)
  }

  function Message(f: Failure): string {
    match f
    case InvalidKey => InvalidKeyMessage
    case RateLimited => RateLimitMessage
    case SafetyBlocked => SafetyMessage
    case Unclassified(d) => ErrorPrefix + d
  }

  /** The answer text returned for a failed generator call.  Every such text
      carries a failure marker, so it is never taken for an answer. */
  function Classify(detail: string): (m: string)
    ensures HasFailureMarker(m)
  {
    Message(Categorize(detail))
  }

  /** The four messages are told apart by their text, so each message is
      returned exactly when its test is the first in the chain to match. */
  lemma ClassifyOrder(detail: string)
    ensures Classify(detail) == InvalidKeyMessage <==> NamesBadKey(detail)
    ensures Classify(detail) == RateLimitMessage <==> !NamesBadKey(detail) && NamesRateLimit(detail)
    ensures Classify(detail) == SafetyMessage <==>
      !NamesBadKey(detail) && !NamesRateLimit(detail) && NamesSafety(detail)
    ensures Classify(detail) == ErrorPrefix + detail <==>
      !NamesBadKey(detail) && !NamesRateLimit(detail) && !NamesSafety(detail)
  {
    var generic := ErrorPrefix + detail;
    assert generic[2] == 'E';
    assert InvalidKeyMessage[2] == 'I';
    assert generic[0] != RateLimitMessage[0] && generic[0] != SafetyMessage[0];
    assert InvalidKeyMessage[0] != RateLimitMessage[0] && InvalidKeyMessage[0] != SafetyMessage[0];
    assert RateLimitMessage[0] != SafetyMessage[0];
  }

  /** `query_gemini` after the call: a response is returned stripped, a
      failure as its classified message. */
  function Query(gen: GenResult): (answer: string)
    ensures gen.Err? ==> HasFailureMarker(answer)
    ensures gen.Ok? ==> exists i :: TrimmedSliceAt(gen.text, answer, i)
    ensures gen.Ok? ==> answer == [] || (!IsSpace(answer[0]) && !IsSpace(answer[|answer| - 1]))
  {
    match gen
    case Ok(text) => StripIsTrimmedSlice(text); Strip(text)
    case Err(detail) => Classify(detail)
  }
}
