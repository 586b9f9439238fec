/** A nullable value: `None` stands for TypeScript's `null` (or `NaN` for a
    number that failed to parse), `Some(v)` for a present value. */
module Wrappers {

  datatype Option<+T> = None | Some(value: T)

}
