/** Small definitions used everywhere. */
module Wrappers {

  /** The absent-or-present result wherever the source returns std::optional. */
  datatype Option<+T> = None | Some(value: T)

  function Min(a: nat, b: nat): nat {
    if a < b then a else b
  }
}
