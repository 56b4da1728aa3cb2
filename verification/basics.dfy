/** Small shared vocabulary: optional values, results with an error payload,
    and powers of two. */
module Basics {

  datatype Option<+T> = None | Some(value: T)

  /** The outcome of an operation that can throw in the original program:
      `Err` carries what the thrown error reports. */
  datatype Result<+T, +E> = Ok(value: T) | Err(error: E) {

    predicate IsFailure() {
      Err?
    }

    function PropagateFailure<U>(): Result<U, E>
      requires Err?
    {
      Err(error)
    }

    function Extract(): T
      requires Ok?
    {
      value
    }
  }

  function Pow2(n: nat): (r: nat)
    ensures r >= 1
    ensures n > 0 ==> r % 2 == 0
  {
    if n == 0 then 1 else 2 * Pow2(n - 1)
  }

  lemma AppendAssoc<T>(a: seq<T>, b: seq<T>, c: seq<T>)
    ensures (a + b) + c == a + (b + c)
  {
  }

  lemma NegFactor(k: int, d: int)
    requires d > 0 && k * d < d
    ensures k <= 0
  {
  }

  lemma MulDistrib(a: int, b: int, d: int)
    ensures a * d - b * d == (a - b) * d
  {
  }

  /** Quotient and remainder are determined by `x == q * d + m`. */
  lemma DivUnique(x: int, d: int, q: int, m: int)
    requires d > 0 && 0 <= m < d && x == q * d + m
    ensures x / d == q && x % d == m
  {
    var q' := x / d;
    MulDistrib(q', q, d);
    MulDistrib(q, q', d);
    NegFactor(q' - q, d);
    NegFactor(q - q', d);
  }

  /** Dividing by `2 * m` is halving, then dividing by `m`. */
  lemma DivDouble(x: nat, m: nat)
    requires m > 0
    ensures x / (2 * m) == (x / 2) / m
    ensures x % (2 * m) == 2 * ((x / 2) % m) + x % 2
  {
    var q, r := (x / 2) / m, (x / 2) % m;
    assert x == q * (2 * m) + (2 * r + x % 2);
    DivUnique(x, 2 * m, q, 2 * r + x % 2);
  }
}
