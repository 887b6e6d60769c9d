/** Datatypes and parameters shared by the models. */
module Common {

  datatype Option<+T> = None | Some(value: T)

  /** The number of addresses a 64-bit `hwaddr` can name. */
  const TWO_64: int := 0x1_0000_0000_0000_0000

  /** Room for the four fixed sections of the dispatch code is assumed. */
  type PageSize = n: nat | 4 <= n witness 4
  const TARGET_PAGE_SIZE: PageSize

  /** The page boundary at or below. */
  function RoundDown(n: nat): (r: nat)
    ensures n - TARGET_PAGE_SIZE < r <= n
  {
    n / TARGET_PAGE_SIZE * TARGET_PAGE_SIZE
  }

  function Min(a: int, b: int): int { if a <= b then a else b }

  function Max(a: int, b: int): int { if a >= b then a else b }
}
