/** Small facts about natural-number division that the duration breakdown rests on. */
module Arith {

  /** Euclidean division is unique: a quotient and remainder in range are the quotient and remainder. */
  lemma DivModUnique(x: int, m: int, q: int, r: int)
    requires m > 0 && 0 <= r < m && x == q * m + r
    ensures x / m == q && x % m == r
  {
    var q0, r0 := x / m, x % m;
    assert x == q0 * m + r0;
    if q0 < q {
      MulLe(q0 + 1, q, m);
      assert false;
    } else if q < q0 {
      MulLe(q + 1, q0, m);
      assert false;
    }
  }

  /** Multiplication by a non-negative number is monotone. */
  lemma MulLe(a: int, b: int, m: int)
    requires a <= b && m >= 0
    ensures a * m <= b * m
  {
    assert b * m == a * m + (b - a) * m;
  }

  /** Reducing modulo a multiple of `a` keeps the remainder modulo `a`. */
  lemma ModMod(x: nat, a: nat, b: nat)
    requires a > 0 && b > 0
    ensures x % (a * b) % a == x % a
  {
    var big, r := x / (a * b), x % (a * b);
    var q, s := r / a, r % a;
    assert x == big * (a * b) + r;
    assert r == q * a + s;
    assert x == (big * b + q) * a + s;
    DivModUnique(x, a, big * b + q, s);
  }

  /** Dividing by `a` and then by `b` is dividing by their product. */
  lemma DivDiv(x: nat, a: nat, b: nat)
    requires a > 0 && b > 0
    ensures x / a / b == x / (a * b)
  {
    var q, r := x / a, x % a;
    var q2, r2 := q / b, q % b;
    assert x == q * a + r;
    assert q == q2 * b + r2;
    assert x == q2 * (a * b) + (r2 * a + r);
    MulLe(r2, b - 1, a);
    DivModUnique(x, a * b, q2, r2 * a + r);
  }

  /** Less than one `m` plus fewer than M/m whole `m`s stays below M, when m divides M. */
  lemma StepBound(low: nat, count: nat, m: nat, big: nat)
    requires m > 0 && low < m && count * m < big && big % m == 0
    ensures low + count * m < big
  {
    var ratio := big / m;
    assert big == ratio * m;
    if count >= ratio {
      MulLe(ratio, count, m);
      assert false;
    }
    MulLe(count + 1, ratio, m);
  }
}
