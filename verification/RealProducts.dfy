/** Products of reals behind a name, so that a proof can use one law of multiplication at a time. */
module RealProducts {
  ghost function Times(a: real, b: real): real {
    a * b
  }

  lemma TimesSum(a: real, b: real, c: real)
    ensures Times(a, b + c) == Times(a, b) + Times(a, c)
  {
  }

  lemma TimesCommutes(a: real, b: real)
    ensures Times(a, b) == Times(b, a)
  {
  }

  lemma TimesTwice(a: real, b: real)
    ensures Times(2.0 * a, b) == 2.0 * Times(a, b)
  {
  }

  lemma TimesSign(n: real, x: real)
    requires n > 0.0
    ensures (x > 0.0 ==> Times(n, x) > 0.0) && (x < 0.0 ==> Times(n, x) < 0.0) && (x == 0.0 ==> Times(n, x) == 0.0)
  {
  }

  lemma TimesMonotone(n: real, x: real, y: real)
    requires n > 0.0 && x <= y
    ensures Times(n, x) <= Times(n, y)
  {
    hide Times;
    TimesSum(n, x, y - x);
    TimesSign(n, y - x);
    assert x + (y - x) == y;
  }

  lemma TimesLess(n: real, x: real)
    ensures Times(n, x - 1.0) == Times(n, x) - n
  {
  }

  /** A factor of a product between 0 and the other factor lies between 0 and 1. */
  lemma UnitFactor(n: real, x: real, e: real)
    requires n > 0.0 && e == Times(n, x) && 0.0 <= e <= n
    ensures 0.0 <= x <= 1.0
  {
    hide Times;
    TimesSign(n, x);
    TimesSign(n, x - 1.0);
    TimesLess(n, x);
  }
}
