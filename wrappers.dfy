/** The absent-or-present value the page expresses with `undefined`/`null`
    (the result of `Array.prototype.find`, an empty `currentUser` slot). */
module Wrappers {

  datatype Option<+T> = None | Some(value: T)
}
