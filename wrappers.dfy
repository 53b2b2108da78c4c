/** The optional-value datatype the other modules share: JavaScript's
    `undefined` / `null` become `None`. */
module Wrappers {

  datatype Option<+T> = None | Some(value: T)
}
