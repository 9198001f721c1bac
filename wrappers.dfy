/** The optional-value type shared by the other modules: a JavaScript value that
    may be `undefined` is modelled as `Option`. */
module Wrappers {

  datatype Option<+T> = None | Some(value: T)
}
