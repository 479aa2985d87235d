# Toxicity guards of the classroom recap agent

The recap agent answers a class's questions about the day's lesson through a
hosted language model. `recap_agent/guardrail_helper.py` holds its two safety
callbacks, and this project models them:

- the **input guard** (`guard_input`) looks at the request about to be sent to
  the model. When the latest message is the user's and its first part holds
  non-empty text, it runs that text through the toxicity classifier. If the
  classifier raises, the model is skipped and the user is asked to rephrase.
  If it accepts, the guard writes a debug line with the text to standard
  output. That write sits inside the same `try`, so if it raises, the user is
  asked to rephrase too. Otherwise (and in every other case) the request
  proceeds.
- the **output guard** (`guard_output`) looks at the model's reply. When the
  reply is role-"model" content whose first part holds non-empty text, it runs
  that text through the same classifier. If the classifier raises, the reply is
  replaced by a fixed refusal. Otherwise the reply is delivered unchanged.

Both guards are fail-closed: any `Exception` from the classifier counts as a
rejection, whether it is a toxicity flag or some other failure.

Files:

- `genai_types.dfy` (module `GenaiTypes`): parts, contents, requests and
  responses. Every field the framework leaves optional is an `Option`, so that
  Python's falsiness tests are explicit. `not xs` holds of None and of `[]`
  (`IsEmptyList`). `not s` holds of None and of `""` (`IsBlank`).
- `toxicity.dfy` (module `Toxicity`): the classifier is a function from a text
  to the outcome of one `validate` call. The outcome is `Passed` or
  `Raised(kind)`, where the kind is a toxicity flag or any other `Exception`.
  Both guards take the same classifier, as both use the one module-level guard.
- `guardrail_helper.dfy` (module `GuardrailHelper`): the two guards. They are
  written as the same chain of early returns as the source. The input guard
  also takes a `Console`: whether writing the debug line for a given text
  returns normally. Beside them are
  `CheckedUserText` and `CheckedModelText`, which give the text each guard
  hands to the classifier, or None when it does not call it.
- `guardrail_properties.dfy` (module `GuardrailProperties`): lemmas about the
  guards over all requests, replies and classifiers.

One subtlety comes from modelling replies as values. Suppose the model's reply
is already exactly the output guard's fixed refusal and the classifier rejects
it. Then the guard's result is equal to the original reply. So "the original
reply came back, hence the classifier accepted it" holds for every reply except
that one. `OutputReturnedOriginalWasAccepted` states it with that exception,
and `OutputRefusalSurvivesRejection` exhibits the case. The same reply is also
why the classifier's answer can fail to matter to the output guard even when it
is consulted (`OutputConsultsClassifierExactlyOnCheckedText`). The Python code
returns a fresh `LlmResponse` in that case, with every field other than
`content` at its default. So the difference is visible to an identity test and
in the response fields other than `content`, which the model leaves out (see
"Left out").

## Model

| member | source | states |
|---|---|---|
| `GuardrailHelper.GuardInput` | recap_agent/guardrail_helper.py:16-39 | The only override is the fixed rephrase reply. The model call is skipped exactly when there is checked user text and either the classifier does not accept it or writing its debug line raises. |
| `GuardrailHelper.GuardOutput` | recap_agent/guardrail_helper.py:41-63 | The reply is delivered as it is or replaced by the fixed refusal. A reply with no checked text is delivered as it is. A reply with checked text is delivered if the classifier accepts that text and replaced if it does not. |
| `GuardrailHelper.CheckedUserText` | recap_agent/guardrail_helper.py:18-27 | The input guard never hands the classifier an empty text. |
| `GuardrailHelper.CheckedModelText` | recap_agent/guardrail_helper.py:43-52 | The output guard never hands the classifier an empty text. |
| `GuardrailProperties.InputProceedsWithoutContents` | recap_agent/guardrail_helper.py:18-19 | A request whose contents are None or empty proceeds to the model for every classifier, and nothing is checked. |
| `GuardrailProperties.InputProceedsUnlessLatestIsUserWithParts` | recap_agent/guardrail_helper.py:21-23 | If the latest message's role is not "user", or it has no parts (None or empty), the request proceeds and nothing is checked. |
| `GuardrailProperties.InputProceedsOnBlankText` | recap_agent/guardrail_helper.py:25-27 | If the first part of the latest user message has missing or empty text, the request proceeds and nothing is checked. |
| `GuardrailProperties.InputScreensLatestUserText` | recap_agent/guardrail_helper.py:25-39 | For non-empty first text of the latest user message, exactly that text is checked. The request proceeds if the classifier accepts it and its debug line is written. If the classifier raises, or the write raises, the answer is a role-'model' content with exactly one part, "Let's keep our conversation respectful. Please rephrase your message." |
| `GuardrailProperties.InputIgnoresEarlierMessagesAndLaterParts` | recap_agent/guardrail_helper.py:21-25 | Adding earlier messages, or parts after the first in the latest message, never changes the input verdict. |
| `GuardrailProperties.InputDependsOnlyOnCheckedText` | recap_agent/guardrail_helper.py:29-39 | Two classifiers that agree on the checked text give the same input verdict. |
| `GuardrailProperties.InputFailsClosed` | recap_agent/guardrail_helper.py:29-38 | Any exception from the classifier on the checked text, a toxicity flag or any other kind, skips the model with the fixed rephrase reply, whatever the console would do. |
| `GuardrailProperties.InputConsultsClassifierExactlyOnCheckedText` | recap_agent/guardrail_helper.py:18-30 | There is checked user text whose debug line can be written if and only if two classifiers exist that give different input verdicts. |
| `GuardrailProperties.OutputPassesUnscreenedReply` | recap_agent/guardrail_helper.py:43-52 | A reply with no content, a role other than "model", no parts, or missing/empty first text is returned unchanged for every classifier, and nothing is checked. |
| `GuardrailProperties.OutputScreensModelText` | recap_agent/guardrail_helper.py:50-63 | For non-empty first text of a role-"model" reply, exactly that text is checked. The reply is returned unchanged if the classifier accepts it. Otherwise the result is a role-'model' content with exactly one part, "I can't provide that response. Let's focus on positive learning!" |
| `GuardrailProperties.OutputIgnoresLaterParts` | recap_agent/guardrail_helper.py:50 | Parts after the first never change what the output guard checks. |
| `GuardrailProperties.OutputReturnedOriginalWasAccepted` | recap_agent/guardrail_helper.py:54-63 | If the original reply comes back and carries non-empty model text, the classifier accepted that text, unless the reply was the fixed refusal itself. |
| `GuardrailProperties.OutputRefusalSurvivesRejection` | recap_agent/guardrail_helper.py:54-62 | The fixed refusal, given as a reply to any classifier that rejects its text, is checked on that text and comes back equal to itself. This is the one exception to the previous row. |
| `GuardrailProperties.OutputFailsClosed` | recap_agent/guardrail_helper.py:54-62 | Any exception from the classifier on the checked reply text, of any kind, yields the fixed refusal. |
| `GuardrailProperties.OutputDependsOnlyOnCheckedText` | recap_agent/guardrail_helper.py:54-63 | Two classifiers that agree on the checked reply text give the same output. |
| `GuardrailProperties.OutputConsultsClassifierExactlyOnCheckedText` | recap_agent/guardrail_helper.py:43-63 | Two classifiers that give different outputs exist if and only if there is checked model text and the reply is not already the fixed refusal. |

## Left out

- The classifier's internals: the `ToxicLanguage` validator with threshold 0.3 and per-sentence scoring (recap_agent/guardrail_helper.py:8-14). It is a neural model scoring in floating point, so the model takes the classifier as an arbitrary function of the text.
- What the `print` of the accepted user text writes (recap_agent/guardrail_helper.py:31). Only whether it raises is modelled (`Console`), since a raising write yields the rephrase reply.
- Exceptions outside Python's `Exception` class, such as `KeyboardInterrupt` or `SystemExit`, raised by the classifier or the write. `except Exception` does not catch them, so they propagate out of the guard. The model has no outcome for a guard that raises.
- The `callback_context` argument of both guards. Neither guard reads it.
- Fields of the framework's request and response other than the contents. The guards never read them. The fallback replies set only the content.
- Object identity. The source's fallback is a fresh object and its pass-through is the same object. The model compares replies as values. The introduction explains the one reply where this matters.
- Session expiry and the pipeline around the guards. None of the examined files (`recap_agent/guardrail_helper.py`, `recap_agent/agent.py`, `main.py`, `eval/local.py`) checks a session's age, and `recap_agent/agent.py` builds the agent without registering the two callbacks. So neither a session validator nor a guarded request pipeline is modelled.
- The prompt template, the model's safety settings and the agent construction (`recap_agent/agent.py`), deployment (`main.py`) and the evaluation script (`eval/local.py`). They are calls into the hosted framework and network I/O.
