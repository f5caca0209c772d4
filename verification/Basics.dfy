/** Small definitions shared by the models. */
module Basics {

  datatype Option<+T> = None | Some(value: T)

  ghost function Members<T>(s: seq<T>): set<T> {
    set x | x in s
  }

  ghost predicate Distinct<T>(s: seq<T>) {
    forall i, j :: 0 <= i < j < |s| ==> s[i] != s[j]
  }

  /** A product with a nonzero factor is at least as far from zero as the other factor. */
  lemma ProductBound(n: int, d: int)
    requires n > 0
    ensures d >= 1 ==> n * d >= n
    ensures d <= -1 ==> n * d <= -n
  {
  }

  /** Quotient and remainder are unique. */
  lemma RemainderUnique(x: int, q: int, r: int, n: int)
    requires 0 <= r < n && x == n * q + r
    ensures x % n == r && x / n == q
  {
    assert x == n * (x / n) + x % n;
    assert n * (q - x / n) == x % n - r;
    ProductBound(n, q - x / n);
  }

  /** Two numbers with the same remainder that lie less than the modulus apart are equal. */
  lemma SameRemainder(a: int, b: int, n: int)
    requires n > 0 && a % n == b % n && -n < a - b < n
    ensures a == b
  {
    assert a == n * (a / n) + a % n && b == n * (b / n) + b % n;
    assert a - b == n * (a / n - b / n);
    ProductBound(n, a / n - b / n);
  }

  /** Adding the modulus keeps the remainder. */
  lemma AddModulus(a: int, n: int)
    requires n > 0
    ensures (a + n) % n == a % n
  {
    assert a == n * (a / n) + a % n;
    RemainderUnique(a + n, a / n + 1, a % n, n);
  }
}
