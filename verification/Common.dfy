/** The machine integers and small concepts that several parts share. */
module Common {
  const WORD := 0x1_0000_0000

  type Byte = x: int | 0 <= x < 0x100

  // uint32_t
  type Word = x: int | 0 <= x < WORD

  datatype Option<T> = Some(value: T) | None

  // For an int or nat that is known to be one only where this is required.
  predicate IsWord(x: int) { 0 <= x < WORD }

  // uint32_t addition wraps.
  function Add32(x: int, y: int): int { (x + y) % WORD }

  lemma ProductGrows(p: int, p': int, q: int)
    requires 0 <= p <= p' && 0 <= q
    ensures 0 <= p * q <= p' * q
  {
  }
}
