/** Small datatypes shared by the models. */
module Common {

  datatype Option<+T> = None | Some(value: T)

  datatype Result<+T, +E> = Ok(value: T) | Err(error: E)

  function Max(a: int, b: int): int {
    if a >= b then a else b
  }

  function Min(a: int, b: int): int {
    if a <= b then a else b
  }

  lemma AnyOf<T>(s: set<T>) returns (x: T)
    requires s != {}
    ensures x in s
  {
    x :| x in s;
  }

  /** Quotient and remainder are determined by the division equation. */
  lemma DivModUnique(x: int, n: nat, q: int, r: nat)
    requires n >= 1 && r < n && x == n * q + r
    ensures x / n == q && x % n == r
  {
    var d := q - x / n;
    assert n * d == x % n - r;
    assert d >= 1 ==> n * d >= n;
    assert d <= -1 ==> n * d <= n * -1;
  }
}
