/** Quotients and remainders by a divisor that is not a constant. */
module Division {
  lemma BigMultiple(step: nat, d: int)
    ensures d >= 1 ==> step * d >= step
    ensures d <= -1 ==> step * d <= -(step as int)
  {
    assert step * d == step + step * (d - 1) == step * (d + 1) - step;
  }

  lemma QuotientIs(x: int, step: nat, q: int, r: nat)
    requires r < step && x == step * q + r
    ensures x % step == r && x / step == q
  {
    assert x == step * (x / step) + x % step;
    assert step * (q - x / step) == x % step - r;
    BigMultiple(step, q - x / step);
  }
}
