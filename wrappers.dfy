/** Optional values: `None` stands for an absent value (a JavaScript `null`,
    `undefined`, the `[0]` of an empty list, or `NaN` from `parseInt`). */
module Wrappers {

  datatype Option<+T> = None | Some(value: T)
}
