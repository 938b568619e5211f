/** Optional values: `None` stands for an early return or an absent field. */
module Wrappers {

  datatype Option<+T> = None | Some(value: T)

}
