/** Optional values: a JavaScript `undefined`/`null` or a missing map entry
    becomes `None`, a present value becomes `Some`. */
module Wrappers {

  datatype Option<+T> = None | Some(value: T)
}
