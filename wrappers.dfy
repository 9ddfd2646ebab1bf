/** Option and Result values, and the Python exceptions that the rule engine's
    core can raise, turned into values a caller can inspect. */
module Wrappers {

  datatype Option<+T> = None | Some(value: T)

  /** The exceptions raised by `combine_rules` and `evaluate_rule`. */
  datatype Error =
    | IndexError                // `rules[0]` on an empty list
    | NameError(name: string)   // a condition names a field the data does not bind
    | TypeError(op: string)     // an ordering comparison between incomparable values
    | SyntaxError(token: string) // a condition whose operator is not a comparison

  datatype Result<+T> = Success(value: T) | Failure(error: Error)
}
