/** Stand-ins for two Java types: nullable references and the 64-bit `long`. */
module Wrappers {

  /** `None` is Java's `null`; `Some(v)` is a non-null reference to `v`. */
  datatype Option<+T> = None | Some(value: T) {

    /** The referenced value, or `default` for null (Java's `x != null ? x : default`). */
    function GetOr(default: T): T {
      if Some? then value else default
    }
  }

  /** Java's 64-bit `long`. */
  type Long = x: int | -0x8000_0000_0000_0000 <= x < 0x8000_0000_0000_0000
}
