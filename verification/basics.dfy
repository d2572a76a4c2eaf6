/** Small shared types: an optional value and the 16-bit unsigned integer
    that virtual-key codes and UTF-16 scan codes are carried in. */
module Basics {

  /** Rust's `Option`. */
  datatype Option<+T> = None | Some(value: T)

  /** Rust's `u16`. */
  newtype u16 = x: int | 0 <= x < 0x1_0000
}
