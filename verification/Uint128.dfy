/** `Uint128` and `Decimal` arithmetic of cosmwasm-std: additions and products panic when they leave
    128 bits, subtraction reports `Underflow`, ratios round down. */
module Uint128 {
  import opened Outcomes

  const TWO_64: nat := 0x1_0000_0000_0000_0000
  const TWO_128: nat := 0x1_0000_0000_0000_0000_0000_0000_0000_0000

  /** Fixed-point denominator: a `Decimal` is a numerator over 10^18. */
  const DECIMAL_FRACTIONAL: nat := 1_000_000_000_000_000_000

  type U128 = x: nat | x < TWO_128

  function Add(a: nat, b: nat): Outcome<nat> {
    if a + b < TWO_128 then Ok(a + b) else Panic
  }

  function Sub(a: nat, b: nat): Outcome<nat> {
    if b > a then Err(Underflow) else Ok(a - b)
  }

  function MultiplyRatio(x: nat, nominator: nat, denominator: nat): Outcome<nat> {
    if denominator == 0 then Panic
    else if x * nominator >= TWO_128 then Panic
    else Ok(x * nominator / denominator)
  }

  function MulDecimal(x: nat, ratio: nat): Outcome<nat> {
    if x == 0 || ratio == 0 then Ok(0) else MultiplyRatio(x, ratio, DECIMAL_FRACTIONAL)
  }
}
