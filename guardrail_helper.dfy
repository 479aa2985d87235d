/** The two model callbacks of the recap agent: `GuardInput` screens the request
    about to go to the model, `GuardOutput` screens the model's reply. Both look at
    the first text part of one message, ask the shared classifier about it, and
    substitute a fixed reply when the classifier does not let it through. The
    callback context both receive is never read and is left out. */
module GuardrailHelper {
  import opened GenaiTypes
  import opened Toxicity

  const InputRefusalText: string := "Let's keep our conversation respectful. Please rephrase your message."
  const OutputRefusalText: string := "I can't provide that response. Let's focus on positive learning!"

  /** What `GuardInput` answers when it short-circuits the model call. */
  const InputRefusal: LlmResponse := ModelReply(InputRefusalText)

  /** What `GuardOutput` delivers in place of a rejected reply. */
  const OutputRefusal: LlmResponse := ModelReply(OutputRefusalText)

  /** Whether the debug line `GuardInput` writes to standard output for an
      accepted text is written without raising (false: the stream is closed or
      broken, or cannot encode the text). The write happens inside the same
      `try` as the classifier call, so its failure is caught like a rejection. */
  type Console = string -> bool

  /** The text `GuardInput` hands to the classifier, or None when it does not call
      it: the first part of the latest message, when that message is the user's
      and the text is present and non-empty. */
  function CheckedUserText(req: LlmRequest): (t: Option<string>)
    ensures t.Some? ==> t.value != ""
  {
    if req.contents.Some? && req.contents.value != [] then
      var last := Last(req.contents.value);
      if last.role == Some("user") && last.parts.Some? && last.parts.value != []
         && last.parts.value[0].text.Some? && last.parts.value[0].text.value != ""
      then last.parts.value[0].text
      else None
    else None
  }

  /** The text `GuardOutput` hands to the classifier, or None when it does not
      call it: the first part of the reply, when the reply is a role-"model"
      content and the text is present and non-empty. */
  function CheckedModelText(resp: LlmResponse): (t: Option<string>)
    ensures t.Some? ==> t.value != ""
  {
    match resp.content
    case None => None
    case Some(c) =>
      if c.role == Some("model") && c.parts.Some? && c.parts.value != []
         && c.parts.value[0].text.Some? && c.parts.value[0].text.value != ""
      then c.parts.value[0].text
      else None
  }

  /** The before-model callback. None means "send the request to the model";
      Some(reply) means "skip the model and answer with reply". Every `Exception`
      raised inside the `try`, by the classifier or by the debug line written
      after it accepts, counts as a rejection. */
  function GuardInput(req: LlmRequest, validate: Validator, console: Console): (r: Option<LlmResponse>)
    // the only override is the fixed request to rephrase
    ensures r == None || r == Some(InputRefusal)
    // the model call is skipped exactly when there is checked text and either
    // the classifier does not accept it or echoing it raises
    ensures r.Some? <==>
              CheckedUserText(req).Some? &&
              (!Accepts(validate, CheckedUserText(req).value) || !console(CheckedUserText(req).value))
  {
    if IsEmptyList(req.contents) then None
    else
      var lastContent := Last(req.contents.value);
      if lastContent.role != Some("user") || IsEmptyList(lastContent.parts) then None
      else
        var userText := lastContent.parts.value[0].text;
        if IsBlank(userText) then None
        else
          match validate(userText.value)
          case Raised(_) => Some(InputRefusal)
          case Passed => if console(userText.value) then None else Some(InputRefusal)
  }

  /** The after-model callback: the reply to deliver to the user, either the
      model's own reply untouched or the fixed refusal. Every `Exception` from
      the classifier counts as a rejection. */
  function GuardOutput(resp: LlmResponse, validate: Validator): (r: LlmResponse)
    // the reply is delivered as it is, or replaced by the fixed refusal
    ensures r == resp || r == OutputRefusal
    // a reply the classifier is not asked about is delivered as it is
    ensures CheckedModelText(resp).None? ==> r == resp
    // a reply it is asked about is delivered iff it accepts, replaced iff it refuses
    ensures CheckedModelText(resp).Some? ==>
              (Accepts(validate, CheckedModelText(resp).value) ==> r == resp) &&
              (!Accepts(validate, CheckedModelText(resp).value) ==> r == OutputRefusal)
  {
    if resp.content.None? then resp
    else
      var modelContent := resp.content.value;
      if modelContent.role != Some("model") || IsEmptyList(modelContent.parts) then resp
      else
        var modelText := modelContent.parts.value[0].text;
        if IsBlank(modelText) then resp
        else
          match validate(modelText.value)
          case Raised(_) => OutputRefusal
          case Passed => resp
  }
}
