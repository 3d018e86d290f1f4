/** Small value types shared by the model, and Java's integer operators. */
module Common {

  /** A reference that may be absent (Java's nullable field). */
  datatype Option<T> = None | Some(value: T)

  /** Either a value or the IllegalArgumentException the source throws. */
  datatype Result<T> = Ok(value: T) | IllegalArgument

  function Max(a: int, b: int): int { if a >= b then a else b }

  function Min(a: int, b: int): int { if a <= b then a else b }

  /** Java's `a / d` for a positive divisor: the quotient is truncated toward zero. */
  function JavaDiv(a: int, d: int): (q: int)
    requires d > 0
    ensures a >= 0 ==> q == a / d
    ensures a < 0 ==> q <= 0 && -q == (-a) / d
  {
    if a >= 0 then a / d else -((-a) / d)
  }

  /** Java's `a % d` for a positive divisor: the remainder takes the sign of `a`. */
  function JavaRem(a: int, d: int): (m: int)
    requires d > 0
    ensures a == JavaDiv(a, d) * d + m
    ensures a >= 0 ==> m == a % d
    ensures -d < m < d
  {
    a - JavaDiv(a, d) * d
  }
}
