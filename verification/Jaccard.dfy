/**
 Set similarity of syntax fingerprints (`_metric`, scripts/benchmark_callee_context.py, lines 309-322).
 On non-empty fingerprints one minus the score is a metric.
 */
module Jaccard {
  import opened Wrappers
  import opened FiniteSets
  import opened RealProducts

  type Fingerprint = set<int>

  /** A unit's subtree hashes, as listed, and the hash of its exact form. */
  datatype FunctionUnit = FunctionUnit(subtreeHashes: seq<int>, exactHash: int)

  datatype Metric = Metric(score: Option<real>, exact: Option<bool>, status: string, reason: Option<string>)

  function Missing(reason: string): Metric {
    Metric(None, None, "abstained", Some(reason))
  }

  function Score(a: Fingerprint, b: Fingerprint): real
    requires a != {} && b != {}
  {
    UnionNonEmpty(a, b);
    |a * b| as real / |a + b| as real
  }

  lemma UnionNonEmpty(a: Fingerprint, b: Fingerprint)
    requires a != {}
    ensures |a + b| > 0
  {
    var x := Pick(a);
    assert x in a + b;
  }

  function Measure(left: FunctionUnit, right: FunctionUnit, status: string): Metric {
    var a, b := Elements(left.subtreeHashes), Elements(right.subtreeHashes);
    if a == {} || b == {} then Missing("empty_syntax_fingerprint")
    else Metric(Some(Score(a, b)), Some(left.exactHash == right.exactHash), status, None)
  }

  ghost function Distance(a: Fingerprint, b: Fingerprint): real
    requires a != {} && b != {}
  {
    1.0 - Score(a, b)
  }

  /** The elements in exactly one of the two sets. */
  ghost function Difference(a: Fingerprint, b: Fingerprint): Fingerprint {
    (a - b) + (b - a)
  }

  lemma UnionParts(a: Fingerprint, b: Fingerprint)
    ensures |a + b| == |a * b| + |Difference(a, b)|
    ensures 2 * |a + b| == |a| + |b| + |Difference(a, b)|
  {
    assert a + b == a * b + Difference(a, b) && a * b !! Difference(a, b);
    assert Difference(a, b) == (a - b) + (b - a) && (a - b) !! (b - a);
    assert a == (a - b) + a * b && b == (b - a) + a * b;
  }

  lemma DifferenceTriangle(a: Fingerprint, b: Fingerprint, c: Fingerprint)
    ensures |Difference(a, c)| <= |Difference(a, b)| + |Difference(b, c)|
  {
    var u, v := Difference(a, b), Difference(b, c);
    assert Difference(a, c) <= u + v;
    SubsetSize(Difference(a, c), u + v);
    assert u + v == u + (v - u);
    SubsetSize(v - u, v);
  }

  lemma SizeTriangle(a: Fingerprint, b: Fingerprint)
    ensures |b| <= |a| + |Difference(a, b)|
  {
    assert b <= a + Difference(a, b);
    SubsetSize(b, a + Difference(a, b));
    assert a + Difference(a, b) == a + (b - a);
    SubsetSize(b - a, Difference(a, b));
  }

  /** The distance in terms of sizes: 2d / (|a| + |b| + d), where d counts the differing elements. */
  lemma DistanceForm(a: Fingerprint, b: Fingerprint)
    requires a != {} && b != {}
    ensures |a| + |b| + |Difference(a, b)| > 0
    ensures Distance(a, b) == 2.0 * |Difference(a, b)| as real / (|a| + |b| + |Difference(a, b)|) as real
  {
    UnionNonEmpty(a, b);
    UnionParts(a, b);
    Complement(|a * b| as real, |a + b| as real, |Difference(a, b)| as real);
  }

  lemma Complement(i: real, u: real, d: real)
    requires u > 0.0 && u == i + d
    ensures 1.0 - i / u == 2.0 * d / (2.0 * u)
  {
    assert i / u + d / u == 1.0;
    assert 2.0 * d / (2.0 * u) == d / u;
  }

  /** Comparing fractions by cross-multiplication. */
  lemma CrossMultiply(a: real, b: real, c: real, d: real)
    requires b > 0.0 && d > 0.0 && Times(a, d) <= Times(c, b)
    ensures a / b <= c / d
  {
    var f, g := a / b, c / d;
    BothScaled(f, b, d);
    BothScaled(g, d, b);
    hide Times;
    TimesCommutes(b, d);
    TimesSign(b, d);
    TimesSum(Times(b, d), g, f - g);
    TimesSign(Times(b, d), f - g);
    assert g + (f - g) == f;
  }

  lemma BothScaled(f: real, b: real, d: real)
    ensures Times(Times(b, d), f) == Times(f * b, d)
  {
  }

  /** x / (s + x) grows with x. */
  lemma FractionGrows(s: real, x: real, y: real)
    requires s > 0.0 && 0.0 <= x <= y
    ensures 2.0 * x / (s + x) <= 2.0 * y / (s + y)
  {
    GrowsCross(s, x, y);
    CrossMultiply(2.0 * x, s + x, 2.0 * y, s + y);
  }

  /** After cross-multiplication both sides have 2xy in common, and xs <= ys remains. */
  lemma GrowsCross(s: real, x: real, y: real)
    requires s > 0.0 && 0.0 <= x <= y
    ensures Times(2.0 * x, s + y) <= Times(2.0 * y, s + x)
  {
    hide Times;
    TimesTwice(x, s + y);
    TimesTwice(y, s + x);
    TimesSum(x, s, y);
    TimesSum(y, s, x);
    TimesCommutes(x, y);
    TimesCommutes(x, s);
    TimesCommutes(y, s);
    TimesMonotone(s, x, y);
  }

  /** A smaller denominator makes a larger fraction. */
  lemma DenominatorShrinks(x: real, small: real, large: real)
    requires 0.0 <= x && 0.0 < small <= large
    ensures x / large <= x / small
  {
    TimesCommutes(x, small);
    TimesCommutes(x, large);
    if x > 0.0 {
      TimesMonotone(x, small, large);
    }
    CrossMultiply(x, large, x, small);
  }

  lemma FractionSum(x: real, y: real, m: real)
    requires m > 0.0
    ensures (x + y) / m == x / m + y / m
  {
  }

  /** Triangle inequality. */
  lemma TriangleInequality(a: Fingerprint, b: Fingerprint, c: Fingerprint)
    requires a != {} && b != {} && c != {}
    ensures Distance(a, c) <= Distance(a, b) + Distance(b, c)
  {
    hide Distance, Difference;
    DistanceForm(a, b);
    DistanceForm(b, c);
    DistanceForm(a, c);
    DifferenceTriangle(a, b, c);
    SizeTriangle(a, b);
    SizeTriangle(c, b);
    DifferenceSymmetric(b, c);
    SteinhausStep(|a| as real, |b| as real, |c| as real, |Difference(a, c)| as real, |Difference(a, b)| as real,
                  |Difference(b, c)| as real, Distance(a, c), Distance(a, b), Distance(b, c));
  }

  lemma DifferenceSymmetric(a: Fingerprint, b: Fingerprint)
    ensures Difference(a, b) == Difference(b, a)
  {
  }

  lemma SteinhausStep(a: real, b: real, c: real, p: real, q: real, r: real, dp: real, dq: real, dr: real)
    requires a > 0.0 && b > 0.0 && c > 0.0 && p >= 0.0 && q >= 0.0 && r >= 0.0
    requires p <= q + r && b <= a + q && b <= c + r
    requires dp == 2.0 * p / (a + c + p) && dq == 2.0 * q / (a + b + q) && dr == 2.0 * r / (b + c + r)
    ensures dp <= dq + dr
  {
    var m := a + c + (q + r);
    FractionGrows(a + c, p, q + r);
    FractionSum(2.0 * q, 2.0 * r, m);
    DenominatorShrinks(2.0 * q, a + b + q, m);
    DenominatorShrinks(2.0 * r, b + c + r, m);
  }

  lemma Symmetric(a: Fingerprint, b: Fingerprint)
    requires a != {} && b != {}
    ensures Distance(a, b) == Distance(b, a)
  {
    assert a * b == b * a && a + b == b + a;
  }

  /** The distance is between 0 and 1, and 0 exactly for equal fingerprints. */
  lemma ZeroExactlyWhenEqual(a: Fingerprint, b: Fingerprint)
    requires a != {} && b != {}
    ensures 0.0 <= Distance(a, b) <= 1.0
    ensures Distance(a, b) == 0.0 <==> a == b
  {
    UnionNonEmpty(a, b);
    UnionParts(a, b);
    var i, u := |a * b|, |a + b|;
    UnitQuotient(i, u);
    if Distance(a, b) == 0.0 {
      assert Difference(a, b) == {};
      forall x ensures x in a <==> x in b {
        assert x !in Difference(a, b);
      }
    }
    if a == b {
      assert a * b == a + b;
    }
  }

  lemma UnitQuotient(i: nat, u: nat)
    requires 0 < u && i <= u
    ensures 0.0 <= i as real / u as real <= 1.0
    ensures i as real / u as real == 1.0 <==> i == u
  {
  }

  /**
   The reported scores form a metric: whenever three units have fingerprints, all three scores are reported,
   and one minus the score is symmetric, zero exactly for equal fingerprints, and obeys the triangle inequality.
   */
  lemma ReportedMetric(x: FunctionUnit, y: FunctionUnit, z: FunctionUnit, status: string)
    requires x.subtreeHashes != [] && y.subtreeHashes != [] && z.subtreeHashes != []
    ensures Measure(x, y, status).score.Some? && Measure(y, z, status).score.Some? && Measure(x, z, status).score.Some?
    ensures Measure(x, y, status).score == Measure(y, x, status).score
    ensures Measure(x, y, status).score == Some(1.0) <==> Elements(x.subtreeHashes) == Elements(y.subtreeHashes)
    ensures 1.0 - Measure(x, z, status).score.value <=
            (1.0 - Measure(x, y, status).score.value) + (1.0 - Measure(y, z, status).score.value)
  {
    var a, b, c := Elements(x.subtreeHashes), Elements(y.subtreeHashes), Elements(z.subtreeHashes);
    assert x.subtreeHashes[0] in a && y.subtreeHashes[0] in b && z.subtreeHashes[0] in c;
    assert a != {} && b != {} && c != {};
    assert Distance(a, b) == 1.0 - Score(a, b) && Distance(b, c) == 1.0 - Score(b, c) &&
      Distance(a, c) == 1.0 - Score(a, c);
    assert Distance(b, a) == 1.0 - Score(b, a);
    hide Distance, Score;
    Symmetric(a, b);
    ZeroExactlyWhenEqual(a, b);
    TriangleInequality(a, b, c);
  }

  /** A unit without fingerprint gets no score; otherwise the status is passed on and exactness compared. */
  lemma AbstainsExactly(x: FunctionUnit, y: FunctionUnit, status: string)
    ensures Measure(x, y, status).score.None? <==> x.subtreeHashes == [] || y.subtreeHashes == []
    ensures Measure(x, y, status).score.None? ==>
      Measure(x, y, status) == Metric(None, None, "abstained", Some("empty_syntax_fingerprint"))
    ensures Measure(x, y, status).score.Some? ==>
      Measure(x, y, status).status == status && Measure(x, y, status).reason == None &&
      (Measure(x, y, status).exact == Some(true) <==> x.exactHash == y.exactHash) &&
      Measure(x, y, status).exact.Some?
  {
    if x.subtreeHashes != [] {
      assert x.subtreeHashes[0] in Elements(x.subtreeHashes);
    }
    if y.subtreeHashes != [] {
      assert y.subtreeHashes[0] in Elements(y.subtreeHashes);
    }
  }
}
