/** The optional value used wherever the game's code returns `undefined` or stores `null`. */
module Wrappers {

  datatype Option<+T> = None | Some(value: T)
}
