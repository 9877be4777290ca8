/** Facts about multiplication and Euclidean division of naturals that the
    tag-bitmap and CPU-map models lean on, each stated once. */
module Arith {

  lemma MulLe(a: nat, b: nat, t: nat)
    requires a <= b
    ensures a * t <= b * t
  {
  }

  lemma MulLtCancel(a: nat, b: nat, t: nat)
    requires a * t < b * t
    ensures a < b
  {
  }

  lemma MulSucc(a: nat, t: nat)
    ensures (a + 1) * t == a * t + t
  {
  }

  lemma DivNat(x: nat, t: nat)
    requires t > 0
    ensures x / t >= 0 && x % t >= 0
  {
  }

  lemma DivMod(x: nat, t: nat)
    requires t > 0
    ensures x == (x / t) * t + x % t && 0 <= x % t < t
  {
  }

  lemma SmallMultiple(d: int, t: int)
    requires t > 0 && -t < d * t < t
    ensures d == 0
  {
  }

  /** Quotient and remainder are unique. */
  lemma DivModUnique(q: nat, r: nat, t: nat)
    requires r < t
    ensures (q * t + r) / t == q && (q * t + r) % t == r
  {
    var x := q * t + r;
    DivMod(x, t);
    var q2 := x / t;
    assert (q - q2) * t == q * t - q2 * t;
    SmallMultiple(q - q2, t);
  }

  /** Counting on by one modulo `n`. */
  lemma ModSucc(x: nat, n: nat)
    requires n > 0
    ensures (x % n + 1) % n == (x + 1) % n
  {
    DivMod(x, n);
    var q := x / n;
    if x % n + 1 < n {
      DivModUnique(q, x % n + 1, n);
      DivModUnique(0, x % n + 1, n);
    } else {
      assert x + 1 == (q + 1) * n + 0;
      DivModUnique(q + 1, 0, n);
      DivModUnique(1, 0, n);
    }
  }

  /** Division by a positive number is monotone. */
  lemma DivLe(a: nat, b: nat, n: nat)
    requires n > 0 && a <= b
    ensures a / n <= b / n
  {
    DivMod(a, n);
    DivMod(b, n);
    MulSucc(b / n, n);
    if a / n > b / n {
      MulLe(b / n + 1, a / n, n);
    }
  }

  /** Adding the divisor adds one to the quotient. */
  lemma DivAddDivisor(a: nat, n: nat)
    requires n > 0
    ensures (a + n) / n == a / n + 1
  {
    DivMod(a, n);
    MulSucc(a / n, n);
    DivModUnique(a / n + 1, a % n, n);
  }
}
