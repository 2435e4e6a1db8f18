/** The few PHP runtime conversions the library relies on. */
module Php {

  /** `intval(a / n)` for integers, `n > 0`: the exact quotient truncated
      toward zero (PHP's `intval` of a float drops the fraction). */
  function TruncDiv(a: int, n: int): (q: int)
    requires n > 0
    ensures 0 <= a ==> 0 <= q * n <= a < q * n + n
    ensures a < 0 ==> q * n - n < a <= q * n <= 0
  {
    if a >= 0 then
      DivBounds(a, n);
      a / n
    else
      DivBounds(-a, n);
      -((-a) / n)
  }

  lemma DivBounds(a: int, n: int)
    requires a >= 0 && n > 0
    ensures 0 <= (a / n) * n <= a < (a / n) * n + n
  {
    assert a == (a / n) * n + a % n;
    assert 0 <= a % n < n;
    assert a / n >= 0;
  }

  /** A scalar as it may sit in a colour array; floats and numeric strings
      are not modelled. */
  datatype Scalar = Null | Int(i: int) | Bool(b: bool)

  /** PHP `intval`. */
  function IntVal(v: Scalar): int {
    match v
    case Null => 0
    case Int(i) => i
    case Bool(b) => if b then 1 else 0
  }

  /** `isset($array[$key])`: present and not null. */
  predicate IsSet<K>(m: map<K, Scalar>, key: K) {
    key in m && m[key] != Null
  }

  /** A string is falsy in PHP when it is empty or exactly "0". */
  predicate IsFalsyString(s: string) {
    s == "" || s == "0"
  }
}
