/** The engine's 256-bit unsigned integers, with the operations the trade path uses. */
module U256 {

  const TWO_256: nat := 0x1_0000000000000000_0000000000000000_0000000000000000_0000000000000000

  const MAX: nat := TWO_256 - 1

  type Word = n: nat | n < TWO_256

  /** `U256::from_str_radix(text, 10).unwrap_or(ZERO)` on the text of a NUMERIC column. */
  function FromNumeric(n: int): Word {
    if 0 <= n < TWO_256 then n else 0
  }

  function SaturatingSub(a: Word, b: Word): Word {
    if a < b then 0 else a - b
  }

  function SaturatingAdd(a: Word, b: Word): Word {
    if a + b > MAX then MAX else a + b
  }

  function SaturatingMul(a: Word, b: Word): Word {
    if a * b > MAX then MAX else a * b
  }

  function WrappingMul(a: Word, b: Word): Word {
    (a * b) % TWO_256
  }

  function Min(a: Word, b: Word): Word {
    if a < b then a else b
  }
}
