/** Small definitions several modules use. */
module Common {
  datatype Option<+T> = None | Some(value: T)

  function Max(a: int, b: int): (m: int)
    ensures m >= a && m >= b && (m == a || m == b)
  {
    if a < b then b else a
  }

  function Min(a: nat, b: nat): (m: nat)
    ensures m <= a && m <= b && (m == a || m == b)
  {
    if a < b then a else b
  }

  function Abs(x: int): nat {
    if x < 0 then -x else x
  }

  /** The number with its lowest bit set. */
  function OrOne(n: nat): (m: nat)
    ensures m > 0
  {
    if n % 2 == 0 then n + 1 else n
  }
}
