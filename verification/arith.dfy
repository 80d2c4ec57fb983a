/** Small facts about multiplication, division and remainder that the other
    modules lean on. */
module Arith {

  /** Multiplication by a non-negative factor keeps order. */
  lemma MulLe(a: int, b: int, c: int)
    requires a <= b && 0 <= c
    ensures a * c <= b * c
  {
    assert b * c - a * c == (b - a) * c;
  }

  /** The same for reals: a non-negative factor keeps order. */
  lemma MulLeReal(a: real, b: real, c: real)
    requires a <= b && 0.0 <= c
    ensures a * c <= b * c
  {
    assert b * c - a * c == (b - a) * c;
  }

  /** A positive real factor keeps strict order. */
  lemma MulLtReal(a: real, b: real, c: real)
    requires a < b && 0.0 < c
    ensures a * c < b * c
  {
    assert b * c - a * c == (b - a) * c;
  }

  /** Quotient and remainder are determined by `k == q * n + r` with
      `0 <= r < n`. */
  lemma DivModUnique(k: int, n: int, q: int, r: int)
    requires 0 < n && 0 <= r < n && k == q * n + r
    ensures k / n == q && k % n == r
  {
    var q', r' := k / n, k % n;
    assert k == q' * n + r';
    assert (q - q') * n == r' - r;
    if q - q' >= 1 {
      MulLe(1, q - q', n);
    } else if q' - q >= 1 {
      MulLe(1, q' - q, n);
    }
  }

  /** How quotient and remainder move when a counter goes up by one. */
  lemma DivModSucc(k: int, n: int)
    requires 0 <= k && 0 < n
    ensures k % n + 1 < n ==> (k + 1) % n == k % n + 1 && (k + 1) / n == k / n
    ensures k % n + 1 == n ==> (k + 1) % n == 0 && (k + 1) / n == k / n + 1
  {
    var q, r := k / n, k % n;
    assert k == q * n + r;
    if r + 1 < n {
      DivModUnique(k + 1, n, q, r + 1);
    } else {
      DivModUnique(k + 1, n, q + 1, 0);
    }
  }

  /** Adding one to a remainder and reducing again is the remainder of the
      successor. */
  lemma SuccMod(k: int, n: int)
    requires 0 <= k && 0 < n
    ensures (k % n + 1) % n == (k + 1) % n
  {
    DivModSucc(k, n);
    if k % n + 1 < n {
      DivModUnique(k % n + 1, n, 0, k % n + 1);
    } else {
      DivModUnique(n, n, 1, 0);
    }
  }
}
