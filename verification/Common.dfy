/** Small definitions that several parts share. */
module Common {
  datatype Option<T> = Some(value: T) | None

  /** The value that a 32-bit C int or long keeps of a sum. */
  function Wrap(v: int): int { (v + 0x8000_0000) % 0x1_0000_0000 - 0x8000_0000 }
}
