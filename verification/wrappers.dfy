/** The optional-value datatype the model uses in place of JavaScript's
    `null` / `undefined`. */
module Wrappers {

  datatype Option<+T> = None | Some(value: T)
}
