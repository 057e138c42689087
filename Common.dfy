/** Small shared vocabulary: an optional value and the byte type. */
module Common {

  datatype Option<+T> = None | Some(value: T)

  /** An octet, as held by a Node.js Buffer. */
  type byte = x: int | 0 <= x < 256

  function Min(a: int, b: int): int
  {
    if a <= b then a else b
  }
}
