/** The optional value used for JavaScript's `undefined` (and, where a value
    can only be a number or `undefined`, for NaN). */
module Wrappers {

  datatype Option<+T> = None | Some(value: T)
}
