/** The one datatype every other module shares. */
module Prelude {
  /** JavaScript's `T | null` and `T | undefined`. */
  datatype Option<+T> = None | Some(value: T)
}
