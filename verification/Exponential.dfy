/** An exponential over the reals, known only by its laws.  They are hypotheses of the
    lemmas that need them. */
module Exponential {

  ghost predicate ExpLike(E: real -> real) {
    (forall a, b :: Multiplies(E, a, b)) && (forall a :: Positive(E, a))
  }

  ghost predicate Multiplies(E: real -> real, a: real, b: real) { E(a + b) == E(a) * E(b) }

  ghost predicate Positive(E: real -> real, a: real) { E(a) > 0.0 }

  ghost predicate StrictlyIncreasing(E: real -> real) { forall a, b :: Increases(E, a, b) }

  ghost predicate Increases(E: real -> real, a: real, b: real) { a < b ==> E(a) < E(b) }

  lemma Shift(E: real -> real, s: real, m: real)
    requires ExpLike(E)
    ensures E(s - m) * E(m) == E(s) && E(m) > 0.0 && E(s) > 0.0
  {
    assert Multiplies(E, s - m, m) && Positive(E, m) && Positive(E, s);
    assert s - m + m == s;
  }

  lemma Cancel(x: real, y: real, e: real)
    requires e != 0.0 && x * e == y * e
    ensures x == y
  {
    assert (x - y) * e == 0.0;
  }
}
