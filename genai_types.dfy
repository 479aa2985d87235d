/** The slice of the agent framework's message types that the guards look at:
    a request is a list of role-tagged contents, a response carries at most one
    content, and a content is a list of parts that may hold text. Every field the
    framework declares as optional is an Option here, so that Python's falsiness
    tests (`not xs` is true of None and of an empty list, `not s` of None and of
    "") are written out. */
module GenaiTypes {

  datatype Option<+T> = None | Some(value: T)

  /** One part of a message; only its text matters to the guards. */
  datatype Part = Part(text: Option<string>)

  /** A message: who produced it ("user", "model", or unset) and its parts. */
  datatype Content = Content(role: Option<string>, parts: Option<seq<Part>>)

  /** What the agent is about to send to the model: the conversation so far. */
  datatype LlmRequest = LlmRequest(contents: Option<seq<Content>>)

  /** What the model sent back (or what a guard substitutes for it). */
  datatype LlmResponse = LlmResponse(content: Option<Content>)

  /** Python's `not xs` on an optional list. */
  predicate IsEmptyList<T>(xs: Option<seq<T>>) {
    xs.None? || xs.value == []
  }

  /** Python's `not s` on an optional string. */
  predicate IsBlank(s: Option<string>) {
    s.None? || s.value == ""
  }

  /** Python's `xs[-1]` on a non-empty list. */
  function Last<T>(xs: seq<T>): T
    requires xs != []
  {
    xs[|xs| - 1]
  }

  /** A response made of one role-'model' content holding exactly one text part. */
  function ModelReply(text: string): LlmResponse {
    LlmResponse(Some(Content(Some("model"), Some([Part(Some(text))]))))
  }
}
