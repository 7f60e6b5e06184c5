/** The optional value used for JavaScript's `undefined`/`null`/`NaN` inputs and for the estimator's `null` result. */
module Wrappers {

  datatype Option<+T> = None | Some(value: T)
}
