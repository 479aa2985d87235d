/** What the two guards promise, stated over all requests, replies and
    classifiers. */
module GuardrailProperties {
  import opened GenaiTypes
  import opened Toxicity
  import opened GuardrailHelper

  // ---------------------------------------------------------------------------
  // Input guard
  // ---------------------------------------------------------------------------

  /** A request with no contents (None or an empty list) goes to the model,
      whatever the classifier would say. */
  lemma InputProceedsWithoutContents(req: LlmRequest, validate: Validator, console: Console)
    requires IsEmptyList(req.contents)
    ensures GuardInput(req, validate, console) == None
    ensures CheckedUserText(req) == None
  {
  }

  /** When the latest message is not the user's, or has no parts, the request goes
      to the model and the classifier is not asked. */
  lemma InputProceedsUnlessLatestIsUserWithParts(req: LlmRequest, validate: Validator, console: Console)
    requires !IsEmptyList(req.contents)
    requires Last(req.contents.value).role != Some("user") || IsEmptyList(Last(req.contents.value).parts)
    ensures GuardInput(req, validate, console) == None
    ensures CheckedUserText(req) == None
  {
  }

  /** When the first part of the latest user message has no text or empty text,
      the request goes to the model and the classifier is not asked. */
  lemma InputProceedsOnBlankText(earlier: seq<Content>, p: Part, rest: seq<Part>, validate: Validator, console: Console)
    requires IsBlank(p.text)
    ensures GuardInput(LlmRequest(Some(earlier + [Content(Some("user"), Some([p] + rest))])), validate, console) == None
    ensures CheckedUserText(LlmRequest(Some(earlier + [Content(Some("user"), Some([p] + rest))]))) == None
  {
  }

  /** On a latest user message with non-empty first text, that text is exactly
      what the classifier sees. The request goes to the model if the classifier
      accepts it and the debug line is written; otherwise (the classifier raises,
      or writing the line raises) the model is skipped and the user gets one
      role-'model' part asking to rephrase. */
  lemma InputScreensLatestUserText(earlier: seq<Content>, t: string, rest: seq<Part>, validate: Validator, console: Console)
    requires t != ""
    ensures CheckedUserText(LlmRequest(Some(earlier + [Content(Some("user"), Some([Part(Some(t))] + rest))]))) == Some(t)
    ensures Accepts(validate, t) && console(t) ==>
              GuardInput(LlmRequest(Some(earlier + [Content(Some("user"), Some([Part(Some(t))] + rest))])), validate, console) == None
    ensures !Accepts(validate, t) || !console(t) ==>
              GuardInput(LlmRequest(Some(earlier + [Content(Some("user"), Some([Part(Some(t))] + rest))])), validate, console)
              == Some(LlmResponse(Some(Content(Some("model"), Some([Part(Some("Let's keep our conversation respectful. Please rephrase your message."))])))))
  {
  }

  /** Earlier messages and the later parts of the latest message never change
      the input verdict: only the latest message's role and first part count. */
  lemma InputIgnoresEarlierMessagesAndLaterParts(earlier: seq<Content>, role: Option<string>, p: Part, rest: seq<Part>,
                                                 validate: Validator, console: Console)
    ensures GuardInput(LlmRequest(Some(earlier + [Content(role, Some([p] + rest))])), validate, console)
            == GuardInput(LlmRequest(Some([Content(role, Some([p]))])), validate, console)
  {
  }

  /** The input verdict depends on the classifier only through its answer on
      the checked text: classifiers that agree there give the same verdict. */
  lemma InputDependsOnlyOnCheckedText(req: LlmRequest, v1: Validator, v2: Validator, console: Console)
    requires CheckedUserText(req).Some? ==>
               (Accepts(v1, CheckedUserText(req).value) <==> Accepts(v2, CheckedUserText(req).value))
    ensures GuardInput(req, v1, console) == GuardInput(req, v2, console)
  {
  }

  /** Fail-closed: whatever the classifier raises on the checked text, a
      toxicity flag or any other `Exception`, the model is skipped with the same
      fixed reply, and the debug line is never reached. */
  lemma InputFailsClosed(req: LlmRequest, validate: Validator, console: Console, kind: FailureKind)
    requires CheckedUserText(req).Some? && validate(CheckedUserText(req).value) == Raised(kind)
    ensures GuardInput(req, validate, console) == Some(InputRefusal)
  {
  }

  /** The classifier matters to the input guard exactly when there is checked
      user text whose debug line can be written: then some two classifiers give
      different verdicts, and otherwise every classifier gives the same one. */
  lemma InputConsultsClassifierExactlyOnCheckedText(req: LlmRequest, console: Console)
    ensures CheckedUserText(req).Some? && console(CheckedUserText(req).value) <==>
            exists v1: Validator, v2: Validator :: GuardInput(req, v1, console) != GuardInput(req, v2, console)
  {
    if CheckedUserText(req).Some? && console(CheckedUserText(req).value) {
      var accepting: Validator := _ => Passed;
      var flagging: Validator := _ => Raised(ToxicLanguageFlagged);
      assert GuardInput(req, accepting, console) == None;
      assert GuardInput(req, flagging, console) != None;
    }
  }

  // ---------------------------------------------------------------------------
  // Output guard
  // ---------------------------------------------------------------------------

  /** A reply with no content, a content whose role is not "model", no parts, or
      a first part without non-empty text is delivered unchanged, whatever the
      classifier would say. */
  lemma OutputPassesUnscreenedReply(resp: LlmResponse, validate: Validator)
    requires resp.content.None?
          || resp.content.value.role != Some("model")
          || IsEmptyList(resp.content.value.parts)
          || IsBlank(resp.content.value.parts.value[0].text)
    ensures GuardOutput(resp, validate) == resp
    ensures CheckedModelText(resp) == None
  {
  }

  /** A role-"model" reply with non-empty first text is screened on exactly that
      text: delivered unchanged if the classifier accepts, otherwise replaced by
      one role-'model' part with the fixed refusal. */
  lemma OutputScreensModelText(t: string, rest: seq<Part>, validate: Validator)
    requires t != ""
    ensures CheckedModelText(LlmResponse(Some(Content(Some("model"), Some([Part(Some(t))] + rest))))) == Some(t)
    ensures Accepts(validate, t) ==>
              GuardOutput(LlmResponse(Some(Content(Some("model"), Some([Part(Some(t))] + rest)))), validate)
              == LlmResponse(Some(Content(Some("model"), Some([Part(Some(t))] + rest))))
    ensures !Accepts(validate, t) ==>
              GuardOutput(LlmResponse(Some(Content(Some("model"), Some([Part(Some(t))] + rest)))), validate)
              == LlmResponse(Some(Content(Some("model"), Some([Part(Some("I can't provide that response. Let's focus on positive learning!"))]))))
  {
  }

  /** Later parts of the reply never reach the classifier: the reply is checked
      on the same text with or without them. */
  lemma OutputIgnoresLaterParts(role: Option<string>, p: Part, rest: seq<Part>)
    ensures CheckedModelText(LlmResponse(Some(Content(role, Some([p] + rest)))))
            == CheckedModelText(LlmResponse(Some(Content(role, Some([p])))))
  {
  }

  /** When the guard hands back the original reply and that reply carries
      non-empty model text, the classifier accepted that text, unless the
      original reply was itself the fixed refusal (then rejecting it and
      replacing it produce the same value). */
  lemma OutputReturnedOriginalWasAccepted(resp: LlmResponse, validate: Validator)
    requires GuardOutput(resp, validate) == resp
    requires CheckedModelText(resp).Some?
    requires resp != OutputRefusal
    ensures Accepts(validate, CheckedModelText(resp).value)
  {
  }

  /** The one reply for which the previous lemma needs its exception: the fixed
      refusal itself is checked, and a classifier that rejects it gets back a
      reply equal to the original. */
  lemma OutputRefusalSurvivesRejection(validate: Validator)
    requires !Accepts(validate, OutputRefusalText)
    ensures CheckedModelText(OutputRefusal) == Some(OutputRefusalText)
    ensures GuardOutput(OutputRefusal, validate) == OutputRefusal
  {
  }

  /** Fail-closed: whatever the classifier raises on the checked reply text, a
      toxicity flag or any other `Exception`, the user gets the fixed refusal. */
  lemma OutputFailsClosed(resp: LlmResponse, validate: Validator, kind: FailureKind)
    requires CheckedModelText(resp).Some? && validate(CheckedModelText(resp).value) == Raised(kind)
    ensures GuardOutput(resp, validate) == OutputRefusal
  {
  }

  /** The output verdict depends on the classifier only through its answer on
      the checked text. */
  lemma OutputDependsOnlyOnCheckedText(resp: LlmResponse, v1: Validator, v2: Validator)
    requires CheckedModelText(resp).Some? ==>
               (Accepts(v1, CheckedModelText(resp).value) <==> Accepts(v2, CheckedModelText(resp).value))
    ensures GuardOutput(resp, v1) == GuardOutput(resp, v2)
  {
  }

  /** The classifier matters to the output guard exactly when there is checked
      model text and the reply is not already the fixed refusal. */
  lemma OutputConsultsClassifierExactlyOnCheckedText(resp: LlmResponse)
    ensures CheckedModelText(resp).Some? && resp != OutputRefusal <==>
            exists v1: Validator, v2: Validator :: GuardOutput(resp, v1) != GuardOutput(resp, v2)
  {
    if CheckedModelText(resp).Some? && resp != OutputRefusal {
      var accepting: Validator := _ => Passed;
      var flagging: Validator := _ => Raised(OtherException);
      assert GuardOutput(resp, accepting) == resp;
      assert GuardOutput(resp, flagging) == OutputRefusal;
    }
  }
}
