/** Optional values: the aggregate queries answer None where the store has
    no meaningful value to give (an empty store, no matching record). */
module Wrappers {

  datatype Option<+T> = None | Some(value: T)
}
