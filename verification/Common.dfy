/** Datatypes every module shares. */
module Common {

  /** One octet. Every theorem below holds for any alphabet, so the type is left at `char`. */
  type Byte = char

  /** What Go calls a `[]byte` or a `string`: a sequence of octets. */
  type Bytes = string

  datatype Option<+T> = None | Some(value: T)

  function Min(a: int, b: int): int { if a <= b then a else b }
}
