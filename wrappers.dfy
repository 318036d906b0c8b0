/** The optional value used throughout the model: JavaScript's `undefined` result of a
    failed lookup (`Map.get`, `Array.find`, a missing property) is `None`. */
module Wrappers {

  datatype Option<+T> = None | Some(value: T)
}
