/** Small shared vocabulary: an optional value and Rust's unsigned integer widths. */
module Types {

  /** Rust's `Option<T>`. */
  datatype Option<T> = None | Some(value: T) {

    /** Rust's `unwrap_or`: the carried value, or the default when there is none. */
    function GetOr(default: T): (r: T)
      ensures Some? ==> r == value
      ensures None? ==> r == default
    {
      if Some? then value else default
    }
  }

  const U32Limit: nat := 0x1_0000_0000
  const U64Limit: nat := 0x1_0000_0000_0000_0000

  /** Rust's `u32`. */
  type u32 = x: nat | x < U32Limit

  /** Rust's `u64`. */
  type u64 = x: nat | x < U64Limit
}
