/** The toxicity classifier both guards share. Its scoring (a neural model with a
    per-sentence threshold) is not modelled: a classifier is any function from a
    text to the outcome of one `validate` call, which either returns normally or
    raises. */
module Toxicity {

  /** Why a `validate` call raised an `Exception`: the classifier flagged the
      text, or anything else went wrong (a missing model, a network error, ...).
      Exceptions outside `Exception` (an interrupt, a process exit) escape both
      guards and are not modelled. */
  datatype FailureKind = ToxicLanguageFlagged | OtherException

  datatype Outcome = Passed | Raised(kind: FailureKind)

  /** One fixed classifier, shared by the input and the output guard. */
  type Validator = string -> Outcome

  /** The classifier lets `text` through: `validate` returned without raising. */
  predicate Accepts(validate: Validator, text: string) {
    validate(text).Passed?
  }
}
