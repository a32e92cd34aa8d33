/**
 Why a margin of more than three tolerances is needed (scripts/body_qualification_metrics.py, lines 388-400 and
 466-502): two observations that meet every other hypothesis of margin stability, at a margin of exactly three.
 */
module MarginTightness {
  import opened Wrappers
  import opened FiniteSets
  import opened SourcePaths
  import opened Observations
  import opened ThresholdGraph
  import opened IncrementalRuns
  import opened Oracle
  import opened ColdParity

  /** Two functions in two files, with one score between them. */
  const UNITS: seq<Unit> := [Unit("a", "f", 1, 0, 0, 1), Unit("b", "g", 1, 0, 0, 2)]
  const MEMBERS: seq<Member> := [Member(1, "a", "f", 1, 1), Member(2, "b", "g", 1, 2)]
  const SOURCES: map<string, Hash> := map["a" := 0, "b" := 0]
  const PROFILE: Profile := Profile("encoder", 1, "all")
  const VECTORS: seq<VectorRow> := [VectorRow(1, 0, ""), VectorRow(2, 0, "")]

  function Digests(): Foreign {
    Foreign((u: Unit) => u.inputHash, (us: seq<Unit>) => 0, (vs: seq<VectorRow>) => 0, (ps: seq<PairRow>) => 0,
            (s: string) => s)
  }

  function Example(state: string, hits: int, score: real, families: seq<Family>): Observation {
    Observation(
      state, PROFILE, SOURCES, true, [], 2, Stats(2, 2, hits, 0, 0, "requested_pair_cosine", Missing), UNITS, 0, [1, 2],
      MEMBERS, true, GLOBAL_OPTIONS,
      GlobalResult(PROFILE, SOURCES, true, [], Stats(2, 2, 2, 0, 0, "tiled_exact_cosine", Null), MEMBERS, families),
      VECTORS, 0, [PairRow(0, 1, score)], 0, 1, 0)
  }

  /** Both inputs have the one-dimensional vector [x]. */
  function CacheWith(x: real): Cache {
    map[1 := CacheRecord([x], 0, ""), 2 := CacheRecord([x], 0, "")]
  }

  const WARM: real := THRESHOLD - 3.0 * TOLERANCE

  /** A dense product that is three tolerances below the threshold on the warm vectors and on it on the cold ones. */
  function DenseProduct(): Cosine {
    (x: seq<real>, y: seq<real>) => if x == [0.0] then WARM else THRESHOLD
  }

  // ----- The two observations are valid -----

  lemma PlainName(name: string)
    requires name == "a" || name == "b"
    ensures SourceParts(name, Digests().casefold).Some?
  {
    SourcePartsExact(name, [name], Digests().casefold);
    assert PlainPart(name, Digests().casefold);
  }

  lemma ExampleConfigured(state: string, hits: nat, score: real, families: seq<Family>)
    ensures ValidConfiguration(Example(state, hits, score, families), Digests(), false)
  {
    PlainName("a");
    PlainName("b");
  }

  lemma ExampleCohort(state: string, hits: nat, score: real, families: seq<Family>)
    ensures ValidCohort(Example(state, hits, score, families), Digests())
  {
    PlainName("a");
    PlainName("b");
    var o := Example(state, hits, score, families);
    DistinctSize(o.unitInputHashes);
    assert UnitHashes(UNITS) == [1, 2];
  }

  lemma ExampleVectors(state: string, hits: nat, score: real, families: seq<Family>)
    ensures ValidVectors(Example(state, hits, score, families), Digests())
  {
    assert VectorKeys(VECTORS) == [1, 2];
  }

  lemma ExamplePairs(state: string, hits: nat, score: real, families: seq<Family>)
    requires -1.0 <= score <= 1.0
    ensures ValidPairs(Example(state, hits, score, families), Digests())
  {
    var o := Example(state, hits, score, families);
    assert PairKeys(o.pairScores) == [(0, 1)];
    assert (0, 1) in PairKeys(o.pairScores);
  }

  lemma ExampleValid(state: string, hits: nat, score: real, families: seq<Family>)
    requires -1.0 <= score <= 1.0
    ensures ValidApartFromFamilies(Example(state, hits, score, families), Digests(), false)
  {
    hide ValidConfiguration, ValidCohort, ValidVectors, ValidPairs;
    ExampleConfigured(state, hits, score, families);
    ExampleCohort(state, hits, score, families);
    ExampleVectors(state, hits, score, families);
    ExamplePairs(state, hits, score, families);
  }

  // ----- Both pass the oracle -----

  /** The dense score of the two inputs. */
  function DenseScore(x: real): real {
    if x == 0.0 then WARM else THRESHOLD
  }

  lemma DenseValues(x: real)
    ensures Cached(MEMBERS, CacheWith(x))
    ensures var m := Dense(MEMBERS, CacheWith(x), DenseProduct());
      |m| == 2 && |m[0]| == 2 && m[0][1] == DenseScore(x)
  {
    var cache := CacheWith(x);
    assert [x][0] == x;
    assert DenseProduct()([x], [x]) == DenseScore(x);
    assert Dense(MEMBERS, cache, DenseProduct())[0][1] == Clip(CosineAt(MEMBERS, cache, DenseProduct(), 0, 1));
  }

  lemma WarmEdges(m: Matrix)
    requires Square(m, 2) && m[0][1] == WARM
    ensures MatchingEdges(MEMBERS, m) == {}
  {
  }

  lemma ColdEdges(m: Matrix)
    requires Square(m, 2) && m[0][1] == THRESHOLD
    ensures MatchingEdges(MEMBERS, m) == {(0, 1)}
  {
    assert Matching(MEMBERS, m, 0, 1);
  }

  lemma NothingReported(m: Matrix)
    requires Square(m, 2) && m[0][1] == WARM
    ensures ReportMatches(MEMBERS, m, [])
  {
    WarmEdges(m);
    assert MatchesGroups(MEMBERS, m, [], []);
  }

  const FAMILY: Family := Family(MEMBERS, 1, THRESHOLD, THRESHOLD)

  lemma OneComponent()
    ensures AreComponents({(0, 1)}, [{0, 1}])
  {
    var edges, c := {(0, 1)}, {0, 1};
    ConnectedSelf(edges, 0);
    ConnectedStep(edges, 0, 0, 1);
    assert Closed(edges, c);
    forall v ensures v in c <==> Connected(edges, 0, v) {
      if Connected(edges, 0, v) {
        ClosedKeepsConnected(edges, c, 0, v);
      }
    }
    assert (0, 1) in edges;
    TouchedEnds(edges, (0, 1));
    ReachSetIsComponent(edges, 0, c);
    var groups: seq<set<int>> := [c];
    assert groups[0] == c;
    forall v | v in Touched(edges) ensures Listed(groups, v) {
      assert v in groups[0];
    }
  }

  lemma FamilyReported(m: Matrix)
    requires Square(m, 2) && m[0][1] == THRESHOLD
    ensures ReportMatches(MEMBERS, m, [FAMILY])
  {
    ColdEdges(m);
    OneComponent();
    var edges, c := MatchingEdges(MEMBERS, m), {0, 1};
    FamilyDescribes(m);
    assert [FAMILY][0] == FAMILY && [c][0] == c;
    assert MatchesGroups(MEMBERS, m, [FAMILY], [c]);
  }

  lemma FamilyDescribes(m: Matrix)
    requires Square(m, 2) && m[0][1] == THRESHOLD
    ensures DescribesComponent(MEMBERS, m, FAMILY, {0, 1})
  {
    ColdEdges(m);
    var edges, c, s := MatchingEdges(MEMBERS, m), {0, 1}, Shape(1, THRESHOLD, THRESHOLD);
    assert Within(edges, c) == {(0, 1)};
    assert (0, 1) in Within(edges, c) && At(m, (0, 1)) == THRESHOLD;
    assert IsShape(edges, m, c, s) && Near(ShapeOf(FAMILY), s);
    assert MembersOf(MEMBERS, c) == {MEMBERS[0], MEMBERS[1]} == Elements(MEMBERS);
  }

  lemma ExamplePasses(state: string, hits: nat, x: real, score: real, families: seq<Family>)
    requires -1.0 <= score <= 1.0 && Abs(score - DenseScore(x)) <= TOLERANCE
    requires families == if x == 0.0 then [] else [FAMILY]
    ensures Passes(Example(state, hits, score, families), Digests(), CacheWith(x), DenseProduct())
  {
    hide ValidApartFromFamilies, ReportMatches, Dense;
    ExampleValid(state, hits, score, families);
    DenseValues(x);
    if x == 0.0 {
      NothingReported(Dense(MEMBERS, CacheWith(x), DenseProduct()));
    } else {
      FamilyReported(Dense(MEMBERS, CacheWith(x), DenseProduct()));
    }
  }

  // ----- The bound is exact -----

  lemma ExampleMargin()
    ensures Cached(MEMBERS, CacheWith(0.0))
    ensures IsMargin(MEMBERS, Dense(MEMBERS, CacheWith(0.0), DenseProduct()), Some(3.0 * TOLERANCE))
  {
    hide Dense;
    DenseValues(0.0);
    assert CrossFile(MEMBERS, 0, 1);
  }

  lemma ExamplesClose(warm: Observation, cold: Observation)
    requires warm == Example("warm", 2, WARM + TOLERANCE, [])
    requires cold == Example("cold", 0, THRESHOLD - TOLERANCE, [FAMILY])
    ensures SameSubject(warm, cold) && NumericallyClose(warm, cold, CacheWith(0.0), CacheWith(TOLERANCE))
  {
    hide SameScores, CloseScores, CloseVectors;
    ScoresCloseTo(WARM + TOLERANCE, WARM + TOLERANCE);
    ScoresCloseTo(THRESHOLD - TOLERANCE, THRESHOLD - TOLERANCE);
    ScoresCloseTo(WARM + TOLERANCE, THRESHOLD - TOLERANCE);
    VectorsCloseTo();
  }

  lemma ScoresCloseTo(x: real, y: real)
    requires Abs(x - y) <= TOLERANCE
    ensures var s, t := Scoring([1, 2], [PairRow(0, 1, x)]), Scoring([1, 2], [PairRow(0, 1, y)]);
      Indexed(s) && Indexed(t) && CloseScores(s, t) && (x == y ==> SameScores(s, t))
  {
  }

  lemma VectorsCloseTo()
    ensures CloseVectors([1, 2], CacheWith(0.0), CacheWith(TOLERANCE))
  {
  }

  /**
   At a margin of exactly three tolerances, observations that satisfy every other hypothesis of margin stability
   can have different threshold graphs and be told apart by the final comparison.
   */
  lemma MarginIsTight() returns (warm: Observation, cold: Observation, f: Foreign, a: Cache, b: Cache, cosine: Cosine)
    ensures SameSubject(warm, cold) && Passes(warm, f, a, cosine) && Passes(cold, f, b, cosine)
    ensures NumericallyClose(warm, cold, a, b)
    ensures IsMargin(warm.globalResult.inputs, Dense(warm.globalResult.inputs, a, cosine), Some(3.0 * TOLERANCE))
    ensures ThresholdEdges(warm, a, cosine) != ThresholdEdges(cold, b, cosine)
    ensures Groups(warm.globalResult.families) != Groups(cold.globalResult.families)
  {
    hide Passes, NumericallyClose, IsMargin, Dense, MatchingEdges, SameSubject;
    f, a, b, cosine := Digests(), CacheWith(0.0), CacheWith(TOLERANCE), DenseProduct();
    warm := Example("warm", 2, WARM + TOLERANCE, []);
    cold := Example("cold", 0, THRESHOLD - TOLERANCE, [FAMILY]);
    ExamplePasses("warm", 2, 0.0, WARM + TOLERANCE, []);
    ExamplePasses("cold", 0, TOLERANCE, THRESHOLD - TOLERANCE, [FAMILY]);
    ExamplesClose(warm, cold);
    ExampleMargin();
    DenseValues(0.0);
    DenseValues(TOLERANCE);
    WarmEdges(Dense(MEMBERS, a, cosine));
    ColdEdges(Dense(MEMBERS, b, cosine));
    assert (0, 1) in {(0, 1)};
    GroupsDiffer();
  }

  lemma GroupsDiffer()
    ensures Groups([]) != Groups([FAMILY])
  {
    assert |Outline([])| == 0 && |Outline([FAMILY])| == 1;
    assert Outline([FAMILY])[0] in multiset(Outline([FAMILY]));
  }
}
