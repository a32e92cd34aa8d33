/**
 The labelled-pair workload (scripts/benchmark_graph_similarity_evaluation.py, lines 18-66): pairs walk
 around a ring of units in bands of growing offset.
 */
module WorkloadGenerator {
  import opened Wrappers
  import opened FiniteSets

  /** The identifier `f"{split}-{index}"`. */
  datatype UnitId = UnitId(split: string, index: int)

  datatype Pair = Pair(id: UnitId, left: UnitId, right: UnitId, positive: bool)

  datatype Observation = Observation(id: UnitId, score: real)

  datatype Workload = Workload(units: seq<UnitId>, pairs: seq<Pair>, scores: seq<Observation>)

  /** The number of units on the ring. */
  const RING: int := 2500

  function Left(m: int, i: nat): int
    requires m > 0
  {
    i % m
  }

  function Right(m: int, i: nat): int
    requires m > 0
  {
    (i % m + i / m + 1) % m
  }

  function PairAt(split: string, i: nat): Pair {
    Pair(UnitId(split, i), UnitId(split, Left(RING, i)), UnitId(split, Right(RING, i)), i % 2 == 0)
  }

  function ScoreAt(split: string, i: nat): Observation {
    Observation(UnitId(split, i), (if i % 2 == 0 then 0.7 else 0.1) + 0.2 * i as real / 25000.0)
  }

  function Pairs(split: string, n: nat): (ps: seq<Pair>)
    ensures |ps| == n && forall i :: 0 <= i < n ==> ps[i] == PairAt(split, i)
  {
    if n == 0 then [] else Pairs(split, n - 1) + [PairAt(split, n - 1)]
  }

  function Scores(split: string, n: nat): (os: seq<Observation>)
    ensures |os| == n && forall i :: 0 <= i < n ==> os[i] == ScoreAt(split, i)
  {
    if n == 0 then [] else Scores(split, n - 1) + [ScoreAt(split, n - 1)]
  }

  function Ends(p: Pair): set<UnitId> {
    {p.left, p.right}
  }

  function Endpoints(pairs: seq<Pair>): set<UnitId> {
    if pairs == [] then {} else Endpoints(pairs[..|pairs| - 1]) + Ends(pairs[|pairs| - 1])
  }

  /** One iteration: the pair at index i and its score. */
  method MakePair(split: string, i: nat) returns (pair: Pair, score: Observation)
    ensures pair == PairAt(split, i) && score == ScoreAt(split, i)
  {
    var positive := i % 2 == 0;
    var left := UnitId(split, i % 2500);
    var right := UnitId(split, (i % 2500 + i / 2500 + 1) % 2500);
    pair := Pair(UnitId(split, i), left, right, positive);
    score := Observation(UnitId(split, i), (if positive then 0.7 else 0.1) + 0.2 * i as real / 25000.0);
  }

  method GenerateSplit(split: string, n: nat) returns (units: seq<UnitId>, pairs: seq<Pair>, scores: seq<Observation>)
    ensures pairs == Pairs(split, n) && scores == Scores(split, n)
    ensures Distinct(units) && Elements(units) == Endpoints(pairs)
  {
    hide PairAt, ScoreAt;
    pairs, scores := [], [];
    var referenced: set<UnitId> := {};
    for i := 0 to n
      invariant pairs == Pairs(split, i) && scores == Scores(split, i) && referenced == Endpoints(pairs)
    {
      var pair, score := MakePair(split, i);
      referenced := referenced + {pair.left, pair.right};
      assert (pairs + [pair])[..|pairs|] == pairs;
      pairs := pairs + [pair];
      scores := scores + [score];
    }
    units := Listing(referenced);
  }

  /** Different endpoints everywhere, and neither an id nor an unordered pair twice. */
  ghost predicate WellFormed(pairs: seq<Pair>) {
    (forall i :: 0 <= i < |pairs| ==> pairs[i].left != pairs[i].right) &&
    (forall i, j :: 0 <= i < j < |pairs| ==> pairs[i].id != pairs[j].id && Ends(pairs[i]) != Ends(pairs[j]))
  }

  method Generate(pairCount: int, runs: int) returns (w: Option<Workload>)
    ensures w.Some? <==> 8 <= pairCount <= 50000 && pairCount % 4 == 0 && 1 <= runs <= 20
    ensures w.Some? ==>
      w.value.pairs == Pairs("calibration", pairCount / 2) + Pairs("test", pairCount / 2) &&
      w.value.scores == Scores("calibration", pairCount / 2) + Scores("test", pairCount / 2) &&
      Distinct(w.value.units) && Elements(w.value.units) == Endpoints(w.value.pairs)
    ensures w.Some? ==> WellFormed(w.value.pairs) && 2 * PositiveCount(w.value.pairs) == pairCount == |w.value.pairs|
  {
    hide PairAt, ScoreAt, Left, Right, PositiveCount, WellFormed, Pairs, Scores, Endpoints;
    if !(8 <= pairCount <= 50000) || pairCount % 4 != 0 {
      return None;
    }
    if !(1 <= runs <= 20) {
      return None;
    }
    var half := pairCount / 2;
    var units, pairs, scores := GenerateSplit("calibration", half);
    var moreUnits, morePairs, moreScores := GenerateSplit("test", half);
    UnitsJoin(half, units, moreUnits);
    HalfPositive(pairCount);
    SplitsWellFormed(half);
    return Some(Workload(units + moreUnits, pairs + morePairs, scores + moreScores));
  }

  /** The units of the two splits are disjoint and make up the endpoints of all pairs. */
  lemma UnitsJoin(half: nat, units: seq<UnitId>, more: seq<UnitId>)
    requires 1 <= half <= 25000 && Distinct(units) && Distinct(more)
    requires Elements(units) == Endpoints(Pairs("calibration", half))
    requires Elements(more) == Endpoints(Pairs("test", half))
    ensures Distinct(units + more)
    ensures Elements(units + more) == Endpoints(Pairs("calibration", half) + Pairs("test", half))
  {
    hide PairAt, Left, Right, Pairs, Endpoints;
    EndpointsConcat(Pairs("calibration", half), Pairs("test", half));
    SplitEndpoints("calibration", half);
    SplitEndpoints("test", half);
    ElementsConcat(units, more);
    forall k, l | 0 <= k < |units| && 0 <= l < |more| ensures units[k] != more[l] {
      assert units[k] in Elements(units) && more[l] in Elements(more);
    }
  }

  lemma ElementsConcat<T>(a: seq<T>, b: seq<T>)
    ensures Elements(a + b) == Elements(a) + Elements(b)
  {
    assert forall x :: x in a + b <==> x in a || x in b;
  }

  lemma {:induction false} EndpointsConcat(a: seq<Pair>, b: seq<Pair>)
    ensures Endpoints(a + b) == Endpoints(a) + Endpoints(b)
  {
    if b == [] {
      assert a + b == a;
    } else {
      EndpointsConcat(a, b[..|b| - 1]);
      assert (a + b)[..|a + b| - 1] == a + b[..|b| - 1];
    }
  }

  // ----- The ring, for any modulus and number of bands -----

  /** The endpoint reached from a by a step of d, written without division. */
  function Reach(m: int, a: int, d: int): int {
    if a + d < m then a + d else a + d - m
  }

  lemma RightReaches(m: int, i: nat)
    requires m > 0 && i / m + 1 < m
    ensures Right(m, i) == Reach(m, i % m, i / m + 1)
  {
    var a, d := i % m, i / m + 1;
    assert i / m >= 0 by { NonNegativeQuotient(i, m); }
    SmallMod(a + d, m);
  }

  lemma NonNegativeQuotient(i: nat, m: int)
    requires m > 0
    ensures i / m >= 0
  {
  }

  lemma SmallMod(x: int, m: int)
    requires m > 0 && 0 <= x < 2 * m
    ensures x % m == if x < m then x else x - m
  {
    if x < m {
      UniqueQuotient(x, m, 0, x);
    } else {
      UniqueQuotient(x, m, 1, x - m);
    }
  }

  lemma TimesMonotone(a: int, b: int, m: int)
    requires m > 0 && a <= b
    ensures a * m <= b * m
  {
    assert (b - a) * m >= 0;
  }

  lemma UniqueQuotient(x: int, m: int, q: int, r: int)
    requires m > 0 && x == q * m + r && 0 <= r < m
    ensures x / m == q && x % m == r
  {
    var k := x / m;
    assert x == k * m + x % m;
    if q > k {
      TimesMonotone(k + 1, q, m);
    } else if q < k {
      TimesMonotone(q + 1, k, m);
    }
  }

  /** With 2D < M no two steps of length at most D join the same two points. */
  lemma StepsDiffer(m: int, bands: int, a: int, d: int, b: int, e: int)
    requires 2 * bands < m && 0 <= a < m && 0 <= b < m && 1 <= d <= bands && 1 <= e <= bands
    ensures a != Reach(m, a, d)
    ensures {a, Reach(m, a, d)} == {b, Reach(m, b, e)} ==> a == b && d == e
  {
    var x, y := Reach(m, a, d), Reach(m, b, e);
    if {a, x} == {b, y} {
      assert a in {b, y} && x in {b, y} && b in {a, x} && y in {a, x};
    }
  }

  /** Generated pairs have different endpoints, and no unordered pair is generated twice. */
  lemma RingPairsDiffer(m: int, bands: int, i: nat, j: nat)
    requires 0 < m && 2 * bands < m && i < m * bands && j < m * bands
    ensures Left(m, i) != Right(m, i)
    ensures {Left(m, i), Right(m, i)} == {Left(m, j), Right(m, j)} ==> i == j
  {
    BandOf(m, bands, i);
    BandOf(m, bands, j);
    RightReaches(m, i);
    RightReaches(m, j);
    StepsDiffer(m, bands, i % m, i / m + 1, j % m, j / m + 1);
  }

  lemma BandOf(m: int, bands: int, i: nat)
    requires 0 < m && i < m * bands
    ensures 1 <= i / m + 1 <= bands && 0 <= i % m < m && i == m * (i / m) + i % m
  {
    NonNegativeQuotient(i, m);
    var k := i / m;
    assert i == k * m + i % m;
    assert k < bands by {
      if k >= bands {
        TimesMonotone(bands, k, m);
      }
    }
  }

  /** With 2D >= M some unordered pair is generated twice: the bound is exact. */
  lemma RingOverlaps(m: int, bands: int) returns (i: nat, j: nat)
    requires 1 < m <= 2 * bands
    ensures i < m * bands && j < m * bands && i != j
    ensures {Left(m, i), Right(m, i)} == {Left(m, j), Right(m, j)}
  {
    var d := (m + 1) / 2;
    var e := m - d;
    i := PointOf(m, bands, 0, d);
    j := PointOf(m, bands, d, e);
  }

  /** The index whose pair leaves a in the band of offset d. */
  lemma PointOf(m: int, bands: int, a: int, d: int) returns (i: nat)
    requires 0 <= a < m && 1 <= d <= bands && d < m
    ensures i < m * bands && Left(m, i) == a && Right(m, i) == Reach(m, a, d)
  {
    TimesMonotone(0, d - 1, m);
    TimesMonotone(d, bands, m);
    i := (d - 1) * m + a;
    UniqueQuotient(i, m, d - 1, a);
    RightReaches(m, i);
  }

  // ----- The generated workload -----

  /** Within a split: different endpoints, and no unordered pair twice. */
  lemma PairsDiffer(split: string, i: nat, j: nat)
    requires i < 25000 && j < 25000
    ensures PairAt(split, i).left != PairAt(split, i).right
    ensures i != j ==> Ends(PairAt(split, i)) != Ends(PairAt(split, j))
  {
    hide Left, Right;
    RingPairsDiffer(RING, 10, i, j);
    EndsDecide(split, i, j);
  }

  lemma SplitWellFormed(split: string, n: nat)
    requires n <= 25000
    ensures WellFormed(Pairs(split, n))
  {
    hide Left, Right, Pairs, Ends;
    var pairs := Pairs(split, n);
    forall i | 0 <= i < n ensures pairs[i].left != pairs[i].right {
      PairsDiffer(split, i, i);
    }
    forall i, j | 0 <= i < j < n ensures Ends(pairs[i]) != Ends(pairs[j]) {
      PairsDiffer(split, i, j);
    }
  }

  /** The two splits together, whose rings have no unit in common. */
  lemma SplitsWellFormed(half: nat)
    requires half <= 25000
    ensures WellFormed(Pairs("calibration", half) + Pairs("test", half))
  {
    hide Left, Right, Pairs;
    SplitWellFormed("calibration", half);
    SplitWellFormed("test", half);
    var a, b := Pairs("calibration", half), Pairs("test", half);
    forall i, j | 0 <= i < half && 0 <= j < half ensures a[i].id != b[j].id && Ends(a[i]) != Ends(b[j]) {
      assert a[i].left in Ends(a[i]) && a[i].left !in Ends(b[j]);
    }
  }

  lemma EndsDecide(split: string, i: nat, j: nat)
    ensures Ends(PairAt(split, i)) == Ends(PairAt(split, j)) ==>
              {Left(RING, i), Right(RING, i)} == {Left(RING, j), Right(RING, j)}
  {
    hide Left, Right;
    var p, q := PairAt(split, i), PairAt(split, j);
    if Ends(p) == Ends(q) {
      assert p.left in Ends(q) && p.right in Ends(q) && q.left in Ends(p) && q.right in Ends(p);
    }
  }

  function RingSize(n: nat): (size: nat) {
    if n + 1 < RING then n + 1 else RING
  }

  lemma LastPair(i: nat)
    requires i < 25000
    ensures 0 <= Left(RING, i) < RingSize(i + 1) && 0 <= Right(RING, i) < RingSize(i + 1)
    ensures i == 0 ==> Left(RING, i) == 0 && Right(RING, i) == 1
    ensures 0 < i < RING - 1 ==> Right(RING, i) == i + 1
  {
    if i < RING {
      UniqueQuotient(i, RING, 0, i);
    }
    BandOf(RING, 10, i);
    RightReaches(RING, i);
  }

  /** The endpoints of a split are the first min(n + 1, 2500) units of its ring. */
  lemma {:induction false} SplitEndpoints(split: string, n: nat)
    requires 1 <= n <= 25000
    ensures forall u :: u in Endpoints(Pairs(split, n)) <==> u.split == split && 0 <= u.index < RingSize(n)
  {
    hide Left, Right;
    var pairs := Pairs(split, n);
    assert pairs[..n - 1] == Pairs(split, n - 1);
    LastPair(n - 1);
    if n > 1 {
      SplitEndpoints(split, n - 1);
    } else {
      assert Pairs(split, 0) == [];
    }
    assert Endpoints(pairs) == Endpoints(Pairs(split, n - 1)) + Ends(PairAt(split, n - 1));
  }

  function PositiveCount(pairs: seq<Pair>): nat {
    if pairs == [] then 0
    else PositiveCount(pairs[..|pairs| - 1]) + (if pairs[|pairs| - 1].positive then 1 else 0)
  }

  lemma PairPositive(split: string, i: nat)
    ensures PairAt(split, i).positive <==> i % 2 == 0
  {
  }

  function Bit(i: nat): nat {
    if i % 2 == 0 then 1 else 0
  }

  function Half(n: nat): nat {
    (n + 1) / 2
  }

  lemma PositiveStep(split: string, n: nat)
    requires n > 0
    ensures PositiveCount(Pairs(split, n)) == PositiveCount(Pairs(split, n - 1)) + Bit(n - 1)
  {
    hide PairAt;
    assert Pairs(split, n)[..n - 1] == Pairs(split, n - 1);
    PairPositive(split, n - 1);
  }

  lemma HalfStep(n: nat)
    requires n > 0
    ensures Half(n) == Half(n - 1) + Bit(n - 1)
  {
  }

  lemma PositiveNone(split: string)
    ensures PositiveCount(Pairs(split, 0)) == Half(0)
  {
    hide PairAt;
  }

  /** The even indices below n: every other pair is positive. */
  lemma {:induction false} PositiveHalf(split: string, n: nat)
    ensures PositiveCount(Pairs(split, n)) == Half(n)
  {
    hide PositiveCount, Pairs, Half, Bit;
    if n == 0 {
      PositiveNone(split);
    } else {
      PositiveHalf(split, n - 1);
      PositiveStep(split, n);
      HalfStep(n);
    }
  }

  lemma {:induction false} PositiveConcat(a: seq<Pair>, b: seq<Pair>)
    ensures PositiveCount(a + b) == PositiveCount(a) + PositiveCount(b)
  {
    if b == [] {
      assert a + b == a;
    } else {
      PositiveConcat(a, b[..|b| - 1]);
      assert (a + b)[..|a + b| - 1] == a + b[..|b| - 1];
    }
  }

  lemma Quarters(p: nat)
    requires p % 4 == 0
    ensures 4 * ((p / 2 + 1) / 2) == p
  {
    var q := p / 4;
    assert p == 4 * q && p / 2 == 2 * q;
  }

  /** Exactly half of the generated pairs are positive. */
  lemma HalfPositive(pairCount: nat)
    requires pairCount % 4 == 0
    ensures 2 * PositiveCount(Pairs("calibration", pairCount / 2) + Pairs("test", pairCount / 2)) == pairCount
    ensures |Pairs("calibration", pairCount / 2) + Pairs("test", pairCount / 2)| == pairCount
  {
    hide Left, Right, PositiveCount, Pairs, PairAt;
    PositiveConcat(Pairs("calibration", pairCount / 2), Pairs("test", pairCount / 2));
    PositiveHalf("calibration", pairCount / 2);
    PositiveHalf("test", pairCount / 2);
    Quarters(pairCount);
  }

  /** Every positive pair outscores every negative one, by more than 0.4. */
  lemma ScoresSeparate(split: string, other: string, i: nat, j: nat)
    requires i < 25000 && j < 25000 && PairAt(split, i).positive && !PairAt(other, j).positive
    ensures ScoreAt(split, i).score > ScoreAt(other, j).score + 0.4
  {
    assert 0.2 * j as real / 25000.0 < 0.2;
    assert 0.2 * i as real / 25000.0 >= 0.0;
  }
}
