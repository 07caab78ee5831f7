/** The one container every module shares. */
module Prelude {
  datatype Option<+T> = None | Some(value: T)
}
