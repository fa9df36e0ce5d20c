/** What several of the models share: optional values, word sizes and powers of two. */
module Common {
  datatype Option<T> = None | Some(value: T)

  const B32: nat := 0x1_0000_0000
  const B63: nat := 0x8000_0000_0000_0000
  const B64: nat := 0x1_0000_0000_0000_0000
  const B127: nat := 0x8000_0000_0000_0000_0000_0000_0000_0000
  const B128: nat := 0x1_0000_0000_0000_0000_0000_0000_0000_0000

  function Pow2(n: nat): (p: nat)
    ensures p > 0
  {
    if n == 0 then 1 else 2 * Pow2(n - 1)
  }
}
