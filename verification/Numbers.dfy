/** Powers of two, quotients and products, for the shifts and divisions of the source. */
module Numbers {
  function Pow2(n: nat): (r: nat)
    ensures r >= 1
  {
    if n == 0 then 1 else 2 * Pow2(n - 1)
  }

  lemma {:induction false} Scaled(x: nat, y: nat, b: nat)
    requires x < y
    ensures x * b + b <= y * b
  {
    if x + 1 < y {
      Scaled(x, y - 1, b);
    }
    assert y * b == (y - 1) * b + b;
  }

  lemma {:induction false} QuotientIs(a: nat, b: nat, q: nat)
    requires b > 0 && q * b <= a < q * b + b
    ensures a / b == q
  {
    var d := a / b;
    assert a == d * b + a % b;
    if d < q {
      Scaled(d, q, b);
    } else if d > q {
      Scaled(q, d, b);
    }
  }

  lemma {:induction false} RestOfMultiple(q: nat, x: nat, b: nat)
    requires b > 0
    ensures (q * b + x) % b == x % b
  {
    var n := q + x / b;
    assert q * b + x == n * b + x % b;
    QuotientIs(n * b + x % b, b, n);
  }

  lemma {:induction false} QuotientBounds(a: nat, b: nat)
    requires b > 0
    ensures a / b * b <= a < (a / b + 1) * b
  {
    assert a == a / b * b + a % b;
    assert (a / b + 1) * b == a / b * b + b;
  }

  lemma {:induction false} QuotientAtMost(a: nat, b: nat)
    requires b > 0
    ensures a / b <= a
  {
    FactorAtMost(a / b, b, a);
  }

  lemma {:induction false} FactorAtMost(q: nat, b: nat, a: nat)
    requires b > 0 && q * b <= a
    ensures q <= a
  {
    assert q * b >= q * 1;
  }

  lemma {:induction false} Associate(a: int, b: int, c: int)
    ensures a * (b * c) == (a * b) * c
  {}

  function Max(a: int, b: int): int {
    if a > b then a else b
  }

  function Min(a: int, b: int): int {
    if a < b then a else b
  }
}
