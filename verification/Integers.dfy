module Integers {
  type u8 = x: int | 0 <= x < 256
}
