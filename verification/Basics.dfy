/** What several modules share. */
module Basics {
  datatype Option<+T> = None | Some(value: T)

  newtype byte = x: int | 0 <= x < 256

  function Min(a: int, b: int): int {
    if a < b then a else b
  }

  lemma MulLe(a: nat, b: nat, c: nat)
    requires a <= b
    ensures a * c <= b * c
  {
  }

  lemma QuotientIs(x: nat, q: nat, r: nat, b: nat)
    requires b > 0 && r < b && x == q * b + r
    ensures x / b == q
  {
    var p := x / b;
    assert x == p * b + x % b;
    if p < q { MulLe(p + 1, q, b); }
    if p > q { MulLe(q + 1, p, b); }
  }

  lemma DivTwice(n: nat, w: nat)
    requires w > 0
    ensures n / 256 / w == n / (256 * w)
  {
    var q, r := n / 256 / w, n / 256 % w;
    assert n == 256 * (q * w + r) + n % 256;
    assert n == q * (256 * w) + (256 * r + n % 256);
    QuotientIs(n, q, 256 * r + n % 256, 256 * w);
  }
}
