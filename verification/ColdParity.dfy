/**
 Comparison of an incremental run with a cold rebuild
 (scripts/body_qualification_metrics.py, lines 466-508), and the stability of the threshold graph under
 the declared numerical tolerance.
 */
module ColdParity {
  import opened Wrappers
  import opened FiniteSets
  import opened Sorting
  import opened Tables
  import opened SourcePaths
  import opened Observations
  import opened ThresholdGraph
  import opened IncrementalRuns
  import opened Oracle

  // ----- Families up to order -----

  /** The members' ids and the edge count of every family. */
  function Outline(families: seq<Family>): (lines: seq<(IdKey, int)>)
    ensures |lines| == |families|
    ensures forall k :: 0 <= k < |families| ==> lines[k] == (FamilyKey(families[k]), families[k].matchingEdges)
  {
    if families == [] then []
    else
      var last := families[|families| - 1];
      Outline(families[..|families| - 1]) + [(Elements(MemberIds(last)), last.matchingEdges)]
  }

  /** `groups(value)`: the outlines sorted, hence compared as a multiset. */
  function Groups(families: seq<Family>): multiset<(IdKey, int)> {
    multiset(Outline(families))
  }

  /** The graphs have the same components, with the same number of edges in each. */
  ghost predicate SameComponents(a: set<Edge>, b: set<Edge>) {
    forall c :: (IsComponent(a, c) <==> IsComponent(b, c)) && (IsComponent(a, c) ==> |Within(a, c)| == |Within(b, c)|)
  }

  /** One line of the outline describes one component. */
  ghost predicate LineOf(inputs: seq<Member>, edges: set<Edge>, line: (IdKey, int), c: set<int>) {
    IsComponent(edges, c) && Positions(inputs, c) && line == (GroupKey(inputs, c), |Within(edges, c)|)
  }

  ghost predicate HasComponent(inputs: seq<Member>, edges: set<Edge>, line: (IdKey, int)) {
    exists c :: LineOf(inputs, edges, line, c)
  }

  /** The outline is repetition-free and has exactly one line per component. */
  ghost predicate OutlineOf(inputs: seq<Member>, edges: set<Edge>, lines: seq<(IdKey, int)>) {
    Distinct(lines) &&
    (forall k :: 0 <= k < |lines| ==> HasComponent(inputs, edges, lines[k])) &&
    forall c :: IsComponent(edges, c) ==> Positions(inputs, c) && (GroupKey(inputs, c), |Within(edges, c)|) in lines
  }

  lemma MatchOutline(inputs: seq<Member>, m: Matrix, families: seq<Family>)
    requires Square(m, |inputs|) && DistinctIds(inputs) && ReportMatches(inputs, m, families)
    ensures OutlineOf(inputs, MatchingEdges(inputs, m), Outline(families))
  {
    hide DescribesComponent, AreComponents, IsComponent, Within, GroupKey, FamilyKey, Acceptable, MatchingEdges;
    var lines, edges := Outline(families), MatchingEdges(inputs, m);
    var chosen :| MatchesGroups(inputs, m, families, chosen);
    MatchReadable(inputs, m, families, chosen);
    forall k | 0 <= k < |lines| ensures LineOf(inputs, edges, lines[k], chosen[k]) {
      ListedComponent(edges, chosen, k);
      CountOf(inputs, m, families[k], chosen[k]);
    }
    forall k | 0 <= k < |lines| ensures HasComponent(inputs, edges, lines[k]) {
      assert LineOf(inputs, edges, lines[k], chosen[k]);
    }
    var keys := FamilyKeys(families);
    forall k, l | 0 <= k < l < |lines| ensures lines[k] != lines[l] {
      assert keys[k] != keys[l];
    }
    forall c | IsComponent(edges, c)
      ensures Positions(inputs, c) && (GroupKey(inputs, c), |Within(edges, c)|) in lines
    {
      ComponentPositions(inputs, m, c);
      var k := ComponentListed(edges, chosen, c);
      assert lines[k] in lines;
    }
  }

  lemma ListedComponent(edges: set<Edge>, groups: seq<set<int>>, k: nat)
    requires AreComponents(edges, groups) && k < |groups|
    ensures IsComponent(edges, groups[k])
  {
  }

  lemma CountOf(inputs: seq<Member>, m: Matrix, f: Family, c: set<int>)
    requires Square(m, |inputs|) && DescribesComponent(inputs, m, f, c)
    ensures f.matchingEdges == |Within(MatchingEdges(inputs, m), c)|
  {
    var s :| IsShape(MatchingEdges(inputs, m), m, c, s) && Near(ShapeOf(f), s);
  }

  /** Outlines of two graphs are permutations of each other exactly when the components and counts agree. */
  lemma OutlinesCompare(inputs: seq<Member>, a: set<Edge>, b: set<Edge>, x: seq<(IdKey, int)>, y: seq<(IdKey, int)>)
    requires DistinctIds(inputs) && OutlineOf(inputs, a, x) && OutlineOf(inputs, b, y)
    ensures multiset(x) == multiset(y) <==> SameComponents(a, b)
  {
    hide IsComponent, GroupKey, Within;
    if SameComponents(a, b) {
      OutlineIncluded(inputs, a, b, x, y);
      OutlineIncluded(inputs, b, a, y, x);
      DistinctPermutation(x, y);
    }
    if multiset(x) == multiset(y) {
      PermutationDistinct(x, y);
      forall c
        ensures IsComponent(a, c) <==> IsComponent(b, c)
        ensures IsComponent(a, c) ==> |Within(a, c)| == |Within(b, c)|
      {
        if IsComponent(a, c) { LineTransfers(inputs, a, b, x, y, c); }
        if IsComponent(b, c) { LineTransfers(inputs, b, a, y, x, c); }
      }
    }
  }

  lemma OutlineIncluded(inputs: seq<Member>, a: set<Edge>, b: set<Edge>, x: seq<(IdKey, int)>, y: seq<(IdKey, int)>)
    requires OutlineOf(inputs, a, x) && OutlineOf(inputs, b, y) && SameComponents(a, b)
    ensures forall line :: line in x ==> line in y
  {
    hide IsComponent, GroupKey, Within;
    forall line | line in x ensures line in y {
      var k :| 0 <= k < |x| && x[k] == line;
      assert HasComponent(inputs, a, x[k]);
      var c :| LineOf(inputs, a, x[k], c);
      assert IsComponent(b, c);
    }
  }

  lemma LineTransfers(inputs: seq<Member>, a: set<Edge>, b: set<Edge>,
                      x: seq<(IdKey, int)>, y: seq<(IdKey, int)>, c: set<int>)
    requires DistinctIds(inputs) && OutlineOf(inputs, a, x) && OutlineOf(inputs, b, y)
    requires (forall line :: line in x ==> line in y) && IsComponent(a, c)
    ensures IsComponent(b, c) && |Within(a, c)| == |Within(b, c)|
  {
    hide IsComponent, GroupKey, Within;
    var line := (GroupKey(inputs, c), |Within(a, c)|);
    assert line in y;
    var k :| 0 <= k < |y| && y[k] == line;
    assert HasComponent(inputs, b, y[k]);
    var d :| LineOf(inputs, b, y[k], d);
    GroupKeyInjective(inputs, c, d);
  }

  // ----- Margin stability -----

  /** Requested scores of the same inputs differ by at most the tolerance. */
  ghost predicate CloseScores(s: Scoring, t: Scoring)
    requires Indexed(s) && Indexed(t)
  {
    forall k, l :: 0 <= k < |s.rows| && 0 <= l < |t.rows| && RowKey(s, k) == RowKey(t, l) ==>
      -0.000001 <= s.rows[k].score - t.rows[l].score <= 0.000001
  }

  lemma RowAt(s: Scoring, i: int, j: int) returns (k: nat)
    requires Complete(s) && 0 <= i < j < |s.hashes|
    ensures k < |s.rows| && s.rows[k].left == i && s.rows[k].right == j
  {
    var keys := PairKeys(s.rows);
    assert (i, j) in keys;
    k :| 0 <= k < |keys| && keys[k] == (i, j);
  }

  /** Three tolerances separate the two dense scores of one pair of positions. */
  lemma DenseScoresClose(s: Scoring, t: Scoring, w: Matrix, c: Matrix, i: int, j: int)
    requires s.hashes == t.hashes && 0 <= i < j < |s.hashes| && Square(w, |s.hashes|) && Square(c, |s.hashes|)
    requires Complete(s) && Complete(t) && Indexed(s) && Indexed(t) && CloseScores(s, t)
    requires ScoresAgree(s.rows, w) && ScoresAgree(t.rows, c)
    ensures Abs(w[i][j] - c[i][j]) <= 3.0 * TOLERANCE
  {
    var k := RowAt(s, i, j);
    var l := RowAt(t, i, j);
    assert RowKey(s, k) == RowKey(t, l);
  }

  /** A margin of more than three tolerances keeps the threshold graph. */
  lemma MarginKeepsGraph(inputs: seq<Member>, s: Scoring, t: Scoring, w: Matrix, c: Matrix, margin: Option<real>)
    requires |inputs| == |s.hashes| && s.hashes == t.hashes && Square(w, |inputs|) && Square(c, |inputs|)
    requires Complete(s) && Complete(t) && Indexed(s) && Indexed(t) && CloseScores(s, t)
    requires ScoresAgree(s.rows, w) && ScoresAgree(t.rows, c)
    requires IsMargin(inputs, w, margin) && (margin.Some? ==> margin.value > 3.0 * TOLERANCE)
    ensures MatchingEdges(inputs, w) == MatchingEdges(inputs, c)
  {
    forall i, j | 0 <= i < j < |inputs| ensures Matching(inputs, w, i, j) <==> Matching(inputs, c, i, j) {
      if inputs[i].file != inputs[j].file {
        assert CrossFile(inputs, i, j);
        DenseScoresClose(s, t, w, c, i, j);
        assert Abs(w[i][j] - THRESHOLD) > 3.0 * TOLERANCE;
      }
    }
  }

  // ----- compare_cold -----

  ghost predicate CloseVectors(hashes: seq<Hash>, a: Cache, b: Cache) {
    forall k :: 0 <= k < |hashes| ==>
      hashes[k] in a && hashes[k] in b && |a[hashes[k]].vector| == |b[hashes[k]].vector| &&
      forall x :: 0 <= x < |a[hashes[k]].vector| ==>
        -0.000001 <= a[hashes[k]].vector[x] - b[hashes[k]].vector[x] <= 0.000001
  }

  /** The same sources, producer and units, the cold run without reuse. */
  ghost predicate SameSubject(warm: Observation, cold: Observation) {
    cold.state == "cold" && cold.stats.cacheHits == 0 &&
    warm.profile == cold.profile && warm.sourceManifest == cold.sourceManifest && warm.unitManifest == cold.unitManifest
  }

  ghost predicate NumericallyClose(warm: Observation, cold: Observation, a: Cache, b: Cache) {
    var s, t := ScoringOf(warm), ScoringOf(cold);
    Indexed(s) && Indexed(t) && SameScores(s, s) && SameScores(t, t) && CloseScores(s, t) &&
    CloseVectors(warm.unitInputHashes, a, b)
  }

  ghost function ThresholdEdges(o: Observation, cache: Cache, cosine: Cosine): set<Edge>
    requires Cached(o.globalResult.inputs, cache)
  {
    MatchingEdges(o.globalResult.inputs, Dense(o.globalResult.inputs, cache, cosine))
  }

  /** What a passed comparison with a cold rebuild establishes. */
  ghost predicate ColdAccepted(warm: Observation, cold: Observation, f: Foreign, a: Cache, b: Cache, cosine: Cosine) {
    SameSubject(warm, cold) && Passes(warm, f, a, cosine) && Passes(cold, f, b, cosine) &&
    NumericallyClose(warm, cold, a, b) &&
    SameComponents(ThresholdEdges(warm, a, cosine), ThresholdEdges(cold, b, cosine))
  }

  lemma SameInputs(warm: Observation, cold: Observation, f: Foreign)
    requires ValidApartFromFamilies(warm, f, false) && ValidApartFromFamilies(cold, f, false)
    requires warm.unitManifest == cold.unitManifest
    ensures warm.globalResult.inputs == cold.globalResult.inputs && warm.unitInputHashes == cold.unitInputHashes
  {
    hide ValidConfiguration, ValidVectors, ValidPairs;
    var a, b := warm.globalResult.inputs, cold.globalResult.inputs;
    assert |a| == |b| && forall k :: 0 <= k < |a| ==> a[k] == b[k];
  }

  /** The key-set check of line 483 cannot fail once the unit manifests agree. */
  lemma SameKeySets(s: Scoring, t: Scoring, left: map<HashPair, real>, right: map<HashPair, real>)
    requires s.hashes == t.hashes && Complete(s) && Complete(t) && Indexed(s) && Indexed(t)
    requires IsScoreTable(s, left) && IsScoreTable(t, right)
    ensures left.Keys == right.Keys
  {
    forall key ensures key in left <==> key in right {
      var (a, b) := key;
      if a <= b {
        assert Key(a, b) == key;
        RowsExactly(s, a, b);
        RowsExactly(t, a, b);
        assert Repeated(s, a) <==> Repeated(t, a);
      } else {
        assert !HasRow(s, key) && !HasRow(t, key);
      }
    }
  }

  method ScoresClose(ghost s: Scoring, ghost t: Scoring, left: map<HashPair, real>, right: map<HashPair, real>)
    returns (close: bool)
    requires Indexed(s) && Indexed(t) && IsScoreTable(s, left) && IsScoreTable(t, right) && left.Keys == right.Keys
    ensures close <==> CloseScores(s, t)
  {
    hide CloseScores, IsScoreTable;
    if exists key :: key in left.Keys && Abs(left[key] - right[key]) > TOLERANCE {
      ghost var key :| key in left.Keys && Abs(left[key] - right[key]) > TOLERANCE;
      FarKey(s, t, left, right, key);
      return false;
    }
    NoFarKey(s, t, left, right);
    return true;
  }

  lemma FarKey(s: Scoring, t: Scoring, left: map<HashPair, real>, right: map<HashPair, real>, key: HashPair)
    requires Indexed(s) && Indexed(t) && IsScoreTable(s, left) && IsScoreTable(t, right)
    requires key in left && key in right && Abs(left[key] - right[key]) > TOLERANCE
    ensures !CloseScores(s, t)
  {
    assert HasRow(s, key) && HasRow(t, key);
    var k :| 0 <= k < |s.rows| && RowKey(s, k) == key;
    var l :| 0 <= l < |t.rows| && RowKey(t, l) == key;
  }

  lemma NoFarKey(s: Scoring, t: Scoring, left: map<HashPair, real>, right: map<HashPair, real>)
    requires Indexed(s) && Indexed(t) && IsScoreTable(s, left) && IsScoreTable(t, right) && left.Keys == right.Keys
    requires forall key :: key in left.Keys ==> Abs(left[key] - right[key]) <= TOLERANCE
    ensures CloseScores(s, t)
  {
    forall k, l | 0 <= k < |s.rows| && 0 <= l < |t.rows| && RowKey(s, k) == RowKey(t, l)
      ensures Abs(s.rows[k].score - t.rows[l].score) <= TOLERANCE
    {
      assert RowKey(s, k) in left.Keys;
    }
  }

  method VectorsClose(hashes: seq<Hash>, a: Cache, b: Cache, ghost dimension: int) returns (close: bool)
    requires forall k :: 0 <= k < |hashes| ==>
      hashes[k] in a && hashes[k] in b && |a[hashes[k]].vector| == |b[hashes[k]].vector| == dimension
    ensures close <==> CloseVectors(hashes, a, b)
  {
    for k := 0 to |hashes|
      invariant forall l, x :: 0 <= l < k && 0 <= x < dimension ==>
        Abs(a[hashes[l]].vector[x] - b[hashes[l]].vector[x]) <= TOLERANCE
    {
      var u, v := a[hashes[k]].vector, b[hashes[k]].vector;
      for x := 0 to |u|
        invariant forall y :: 0 <= y < x ==> Abs(u[y] - v[y]) <= TOLERANCE
      {
        if Abs(u[x] - v[x]) > TOLERANCE {
          return false;
        }
      }
    }
    return true;
  }

  method CheckNumbers(warm: Observation, cold: Observation, a: Cache, b: Cache) returns (ok: bool)
    requires Complete(ScoringOf(warm)) && Complete(ScoringOf(cold)) && warm.unitInputHashes == cold.unitInputHashes
    requires forall k :: 0 <= k < |warm.unitInputHashes| ==>
      warm.unitInputHashes[k] in a && warm.unitInputHashes[k] in b &&
      |a[warm.unitInputHashes[k]].vector| == |b[warm.unitInputHashes[k]].vector| == warm.profile.dimension
    ensures ok <==> NumericallyClose(warm, cold, a, b)
  {
    hide CloseVectors, CloseScores, SameScores;
    var s, t := ScoringOf(warm), ScoringOf(cold);
    CompleteIndexed(s);
    CompleteIndexed(t);
    var left := Scores(s);
    var right := Scores(t);
    if left.None? || right.None? { return false; }
    SameKeySets(s, t, left.value, right.value);
    var covered := left.value.Keys == right.value.Keys;
    var scores := ScoresClose(s, t, left.value, right.value);
    var vectors := VectorsClose(warm.unitInputHashes, a, b, warm.profile.dimension);
    return covered && scores && vectors;
  }

  /** The comparison of the two family lists decides whether the graphs have the same components and counts. */
  lemma GroupsDecide(warm: Observation, cold: Observation, f: Foreign, a: Cache, b: Cache, cosine: Cosine)
    requires warm.unitManifest == cold.unitManifest && Passes(warm, f, a, cosine) && Passes(cold, f, b, cosine)
    ensures Groups(warm.globalResult.families) == Groups(cold.globalResult.families) <==>
            SameComponents(ThresholdEdges(warm, a, cosine), ThresholdEdges(cold, b, cosine))
  {
    hide ReportMatches, CacheAgrees, ScoresAgree, ValidConfiguration, SameComponents, OutlineOf, MatchingEdges;
    var inputs := warm.globalResult.inputs;
    SameInputs(warm, cold, f);
    OracleShape(warm, f);
    MatchOutline(inputs, Dense(inputs, a, cosine), warm.globalResult.families);
    MatchOutline(inputs, Dense(inputs, b, cosine), cold.globalResult.families);
    OutlinesCompare(inputs, ThresholdEdges(warm, a, cosine), ThresholdEdges(cold, b, cosine),
                    Outline(warm.globalResult.families), Outline(cold.globalResult.families));
  }

  /** Every vector the cache reader returned has the profile's dimension. */
  ghost predicate Dimensioned(cache: Cache, dimension: int) {
    forall h :: h in cache ==> |cache[h].vector| == dimension
  }

  method CompareCold(warm: Observation, cold: Observation, f: Foreign, a: Cache, b: Cache, cosine: Cosine)
    returns (ok: bool)
    requires Dimensioned(a, warm.profile.dimension) && Dimensioned(b, cold.profile.dimension)
    ensures ok <==> ColdAccepted(warm, cold, f, a, b, cosine)
  {
    hide SameComponents, NumericallyClose, ReportMatches, CacheAgrees, ScoresAgree, ValidConfiguration, ValidCohort,
      ValidVectors, ValidPairs, MatchingEdges, Groups, IsMargin;
    if cold.state != "cold" || cold.stats.cacheHits != 0 {
      return false;
    }
    if warm.profile != cold.profile || warm.sourceManifest != cold.sourceManifest {
      return false;
    }
    if warm.unitManifest != cold.unitManifest {
      return false;
    }
    var warmOracle := GlobalOracle(warm, f, a, cosine);
    if warmOracle.None? { return false; }
    var coldOracle := GlobalOracle(cold, f, b, cosine);
    if coldOracle.None? { return false; }
    OracleShape(warm, f);
    OracleShape(cold, f);
    SameInputs(warm, cold, f);
    var numbers := CheckNumbers(warm, cold, a, b);
    if !numbers { return false; }
    GroupsDecide(warm, cold, f, a, b, cosine);
    return Groups(warm.globalResult.families) == Groups(cold.globalResult.families);
  }

  /**
   Margin stability: when warm and cold both pass the oracle, describe the same units and are numerically
   close, a reported warm margin above three tolerances (or no cross-file pair at all) makes the threshold
   graphs identical, so the comparison of families and edge counts cannot fail.
   */
  lemma MarginStability(warm: Observation, cold: Observation, f: Foreign, a: Cache, b: Cache, cosine: Cosine,
                        margin: Option<real>)
    requires SameSubject(warm, cold) && Passes(warm, f, a, cosine) && Passes(cold, f, b, cosine)
    requires NumericallyClose(warm, cold, a, b)
    requires IsMargin(warm.globalResult.inputs, Dense(warm.globalResult.inputs, a, cosine), margin)
    requires margin.Some? ==> margin.value > 3.0 * TOLERANCE
    ensures ThresholdEdges(warm, a, cosine) == ThresholdEdges(cold, b, cosine)
    ensures Groups(warm.globalResult.families) == Groups(cold.globalResult.families)
    ensures ColdAccepted(warm, cold, f, a, b, cosine)
  {
    hide SameComponents, ReportMatches, CacheAgrees, ScoresAgree, ValidConfiguration, ValidCohort,
      ValidVectors, ValidPairs, MatchingEdges, Groups, IsMargin, CloseVectors, CloseScores, SameScores;
    var inputs := warm.globalResult.inputs;
    SameInputs(warm, cold, f);
    OracleShape(warm, f);
    OracleShape(cold, f);
    MarginKeepsGraph(inputs, ScoringOf(warm), ScoringOf(cold), Dense(inputs, a, cosine), Dense(inputs, b, cosine),
      margin);
    SameGraphSameComponents(ThresholdEdges(warm, a, cosine), ThresholdEdges(cold, b, cosine));
    GroupsDecide(warm, cold, f, a, b, cosine);
  }

  lemma SameGraphSameComponents(a: set<Edge>, b: set<Edge>)
    requires a == b
    ensures SameComponents(a, b)
  {
  }
}
