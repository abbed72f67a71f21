/** Optional values: a point, marker, polyline or bound that may be absent. */
module Wrappers {

  datatype Option<+T> = None | Some(value: T)
}
