/** Facts about division and remainder that the solver does not find by itself. */
module Arith {

  lemma MulMonotone(a: int, b: int, s: int)
    requires a <= b && 0 <= s
    ensures a * s <= b * s
  {
    assert (b - a) * s >= 0;
    assert (b - a) * s == b * s - a * s;
  }

  /** Quotient and remainder are determined by the decomposition. */
  lemma DivModUnique(x: int, s: int, q: int, r: int)
    requires 0 <= r < s && x == q * s + r
    ensures x / s == q && x % s == r
  {
    var q', r' := x / s, x % s;
    assert x == q' * s + r';
    assert (q' - q) * s == q' * s - q * s == r - r';
    if q < q' { MulMonotone(1, q' - q, s); }
    if q' < q { MulMonotone(q' - q, -1, s); }
  }

  /** Stepping by one either stays within the block or starts the next one. */
  lemma ModSucc(x: int, s: int)
    requires s > 0
    ensures (x + 1) % s == if x % s + 1 == s then 0 else x % s + 1
    ensures (x + 1) / s == if x % s + 1 == s then x / s + 1 else x / s
  {
    var q, r := x / s, x % s;
    assert x == q * s + r;
    if r + 1 == s {
      assert x + 1 == (q + 1) * s + 0;
      DivModUnique(x + 1, s, q + 1, 0);
    } else {
      DivModUnique(x + 1, s, q, r + 1);
    }
  }

  /** Numbers closer than s with equal remainders are equal. */
  lemma ModInjective(x: int, y: int, s: int)
    requires s > 0 && x % s == y % s && x <= y < x + s
    ensures x == y
  {
    var q, q', r := x / s, y / s, x % s;
    assert x == q * s + r && y == q' * s + r;
    assert (q' - q) * s == q' * s - q * s == y - x;
    if q < q' { MulMonotone(1, q' - q, s); }
    if q' < q { MulMonotone(q' - q, -1, s); }
  }
}
