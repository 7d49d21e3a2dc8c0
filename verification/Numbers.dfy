/** The larger, the smaller, and how far apart. */
module Numbers {

  function Max(a: int, b: int): int
  {
    if a >= b then a else b
  }

  function Min(a: int, b: int): int
  {
    if a <= b then a else b
  }

  function Distance(a: int, b: int): nat
  {
    if a >= b then a - b else b - a
  }
}
