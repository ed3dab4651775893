/** Optional values: the model's stand-in for an empty `std::weak_ptr` or a null `Graph*`. */
module Wrappers {

  datatype Option<+T> = None | Some(value: T)
}
