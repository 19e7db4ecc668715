/** What several parts use. */
module Common {

  datatype Option<T> = None | Some(value: T)

  type Word = string

  type Byte = b: int | 0 <= b < 256

  function Pow2(n: nat): (p: nat)
    ensures p > 0
  {
    if n == 0 then 1 else 2 * Pow2(n - 1)
  }
}
