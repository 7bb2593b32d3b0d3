/** Values that may be absent: JavaScript's `null`, `undefined` and `NaN`
    all become `None` in this model. */
module Basics {

  datatype Option<+T> = None | Some(value: T)
}
