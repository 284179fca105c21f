/** Types and small functions shared by the models. */
module Wrappers {

  datatype Option<+T> = None | Some(value: T) {
    function GetOr(other: T): T {
      if Some? then value else other
    }
  }

  datatype Result<+T, +E> = Ok(value: T) | Err(error: E)

  type byte = x: int | 0 <= x < 256

  function Max(a: int, b: int): (m: int)
    ensures m == a || m == b
  {
    if a > b then a else b
  }

  function Min(a: int, b: int): (m: int)
    ensures m == a || m == b
  {
    if a < b then a else b
  }

  /** The digits of a number. */
  function Decimal(n: nat): (s: string)
    ensures s != []
  {
    var digit := ['0' + (n % 10) as char];
    if n < 10 then digit else Decimal(n / 10) + digit
  }
}
