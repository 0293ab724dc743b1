/** The page and limit arithmetic the list handler applies and the client mirrors. */
module Paging {
  const DefaultPage := 1
  const DefaultLimit := 10
  const MaxLimit := 100

  /** `Math.max(1, n)`. */
  function ClampPage(n: int): (r: int)
    ensures r >= 1
    ensures n >= 1 ==> r == n
    ensures n < 1 ==> r == 1
  {
    if n < 1 then 1 else n
  }

  /** `Math.max(1, Math.min(100, n))`. */
  function ClampLimit(n: int): (r: int)
    ensures 1 <= r <= MaxLimit
    ensures 1 <= n <= MaxLimit ==> r == n
    ensures n < 1 ==> r == 1
    ensures n > MaxLimit ==> r == MaxLimit
  {
    if n < 1 then 1 else if n > MaxLimit then MaxLimit else n
  }

  /** `(page - 1) * limit`: the number of records on the pages before `page`. */
  function Skip(page: int, limit: int): nat
    requires page >= 1 && limit >= 1
  {
    (page - 1) * limit
  }
}
