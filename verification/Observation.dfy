/**
 Qualification observations and their validation
 (scripts/body_qualification_metrics.py, lines 51-260).

 A 64-digit lower-case hexadecimal digest is modelled as the number it writes, which orders exactly as
 the text does.  The digests themselves are parameters: nothing is assumed about SHA-256.
 */
module Observations {
  import opened Wrappers
  import opened FiniteSets
  import opened Sorting
  import opened SourcePaths

  type Hash = int

  datatype Unit = Unit(file: string, symbol: string, line: int, regionIndex: int, sourceStart: int, inputHash: Hash)

  datatype Member = Member(id: Hash, file: string, symbol: string, line: int, inputHash: Hash)

  datatype Neighbors = Missing | Null | Limit(k: int)

  datatype Stats = Stats(functions: int, uniqueInputs: int, cacheHits: int, modelLoadAttempts: int,
                         inferredWindows: int, retrieval: string, neighbors: Neighbors)

  datatype Options = Options(threshold: real, includeSameFile: bool, topK: Option<int>, comparisonScope: string)

  datatype Profile = Profile(identity: string, dimension: int, comparisonScope: string)

  datatype VectorRow = VectorRow(inputHash: Hash, vectorHash: Hash, spans: string)

  datatype PairRow = PairRow(left: int, right: int, score: real)

  datatype Family = Family(members: seq<Member>, matchingEdges: int, score: real, minEdgeSimilarity: real)

  datatype GlobalResult = GlobalResult(profile: Profile, sourceManifest: map<string, Hash>, coverageComplete: bool,
                                       errors: seq<string>, stats: Stats, inputs: seq<Member>, families: seq<Family>)

  datatype Observation = Observation(
    state: string,
    profile: Profile,
    sourceManifest: map<string, Hash>,
    coverageComplete: bool,
    errors: seq<string>,
    functions: int,
    stats: Stats,
    unitManifest: seq<Unit>,
    unitManifestHash: Hash,
    unitInputHashes: seq<Hash>,
    requestedInputs: seq<Member>,
    globalRetrieval: bool,
    globalOptions: Options,
    globalResult: GlobalResult,
    cachedVectors: seq<VectorRow>,
    vectorManifestHash: Hash,
    pairScores: seq<PairRow>,
    pairScoresHash: Hash,
    pairCount: int,
    pairAbstentions: int)

  /** The foreign functions validation calls: SHA-256 over JSON text, and Unicode case folding. */
  datatype Foreign = Foreign(
    identity: Unit -> Hash,
    unitsDigest: seq<Unit> -> Hash,
    vectorsDigest: seq<VectorRow> -> Hash,
    pairsDigest: seq<PairRow> -> Hash,
    casefold: string -> string)

  const GLOBAL_OPTIONS := Options(0.9, false, None, "all")
  const MAX_CACHE_ROWS := 2000

  // ----- The pair universe -----

  predicate Lexicographic(a: (int, int), b: (int, int)) {
    a.0 < b.0 || (a.0 == b.0 && a.1 <= b.1)
  }

  /** `itertools.combinations(range(n), 2)` restricted to first components from i on. */
  function CombinationsFrom(i: nat, n: nat): seq<(int, int)>
    requires i <= n
    decreases n - i
  {
    if i == n then [] else seq(n - i - 1, k => (i, i + 1 + k)) + CombinationsFrom(i + 1, n)
  }

  function Combinations(n: nat): seq<(int, int)> {
    CombinationsFrom(0, n)
  }

  lemma {:induction false} CombinationsFromMembers(i: nat, n: nat)
    requires i <= n
    ensures forall a, b :: (a, b) in CombinationsFrom(i, n) <==> i <= a < b < n
    decreases n - i
  {
    if i < n {
      CombinationsFromMembers(i + 1, n);
      var row: seq<(int, int)> := seq(n - i - 1, k => (i, i + 1 + k));
      var rest := CombinationsFrom(i + 1, n);
      assert CombinationsFrom(i, n) == row + rest;
      forall a, b ensures (a, b) in row + rest <==> i <= a < b < n {
        if a == i && i < b < n {
          assert row[b - i - 1] == (a, b);
        }
      }
    }
  }

  predicate Before(a: (int, int), b: (int, int)) {
    a.0 < b.0 || (a.0 == b.0 && a.1 < b.1)
  }

  lemma {:induction false} CombinationsFromAscend(i: nat, n: nat)
    requires i <= n
    ensures Ordered(CombinationsFrom(i, n), Before)
    decreases n - i
  {
    if i < n {
      CombinationsFromAscend(i + 1, n);
      CombinationsFromMembers(i + 1, n);
      var row: seq<(int, int)> := seq(n - i - 1, k => (i, i + 1 + k));
      var rest := CombinationsFrom(i + 1, n);
      assert CombinationsFrom(i, n) == row + rest;
      forall k | 0 <= k < |rest| ensures rest[k].0 > i {
        var (a, b) := rest[k];
        assert (a, b) in rest;
      }
    }
  }

  lemma {:induction false} CombinationsFromSize(i: nat, n: nat)
    requires i <= n
    ensures |CombinationsFrom(i, n)| == PairCount(n - i)
    decreases n - i
  {
    if i < n {
      CombinationsFromSize(i + 1, n);
    }
  }

  ghost predicate InRange(n: nat, pairs: seq<(int, int)>) {
    forall k :: 0 <= k < |pairs| ==> 0 <= pairs[k].0 < pairs[k].1 < n
  }

  /** Every unordered pair of positions is listed, and none twice. */
  ghost predicate CoversOnce(n: nat, pairs: seq<(int, int)>) {
    InRange(n, pairs) && Distinct(pairs) && forall i, j :: 0 <= i < j < n ==> (i, j) in pairs
  }

  lemma UniverseFacts(n: nat)
    ensures |Combinations(n)| == PairCount(n)
    ensures CoversOnce(n, Combinations(n)) && Ordered(Combinations(n), Lexicographic)
  {
    hide CombinationsFrom, PairCount;
    CombinationsFromSize(0, n);
    CombinationsFromAscend(0, n);
    AscendingDistinct(Combinations(n));
    CombinationsFromMembers(0, n);
    MembersInRange(n, Combinations(n));
  }

  lemma AscendingDistinct(s: seq<(int, int)>)
    requires Ordered(s, Before)
    ensures Distinct(s) && Ordered(s, Lexicographic)
  {
    assert forall k, l :: 0 <= k < l < |s| ==> Before(s[k], s[l]);
  }

  lemma MembersInRange(n: nat, s: seq<(int, int)>)
    requires forall a, b :: (a, b) in s <==> 0 <= a < b < n
    ensures InRange(n, s)
  {
    forall k | 0 <= k < |s| ensures 0 <= s[k].0 < s[k].1 < n {
      var (a, b) := s[k];
      assert (a, b) in s;
    }
  }

  /** Two exact coverings of the same universe list the same pairs. */
  lemma CoveringsPermute(n: nat, a: seq<(int, int)>, b: seq<(int, int)>)
    requires CoversOnce(n, a) && CoversOnce(n, b)
    ensures multiset(a) == multiset(b)
  {
    CoversMembership(n, a);
    CoversMembership(n, b);
    DistinctPermutation(a, b);
  }

  lemma CoversMembership(n: nat, a: seq<(int, int)>)
    requires CoversOnce(n, a)
    ensures forall p :: p in a <==> 0 <= p.0 < p.1 < n
  {
    forall p ensures p in a <==> 0 <= p.0 < p.1 < n {
      assert p == (p.0, p.1);
    }
  }

  lemma PermutationCovers(n: nat, a: seq<(int, int)>, b: seq<(int, int)>)
    requires CoversOnce(n, a) && multiset(a) == multiset(b)
    ensures CoversOnce(n, b)
  {
    PermutationDistinct(a, b);
    CoversMembership(n, a);
    forall k | 0 <= k < |b| ensures 0 <= b[k].0 < b[k].1 < n {
      assert b[k] in b;
    }
  }

  lemma LexicographicOrder()
    ensures TotalPreorder(Lexicographic)
    ensures forall a, b :: Lexicographic(a, b) && Lexicographic(b, a) ==> a == b
  {
  }

  /** The sort-and-compare check of line 252 decides exact coverage of the pair universe. */
  lemma SortedUniverse(n: nat, pairs: seq<(int, int)>)
    ensures Sorted(pairs, Lexicographic) == Combinations(n) <==> CoversOnce(n, pairs)
  {
    UniverseFacts(n);
    LexicographicOrder();
    SortedOrdered(pairs, Lexicographic);
    var sorted := Sorted(pairs, Lexicographic);
    if sorted == Combinations(n) {
      PermutationCovers(n, Combinations(n), pairs);
    }
    if CoversOnce(n, pairs) {
      CoveringsPermute(n, pairs, Combinations(n));
      OrderedUnique(sorted, Combinations(n), Lexicographic);
    }
  }

  // ----- What a valid observation is -----

  ghost function MemberOf(f: Foreign, u: Unit): Member {
    Member(f.identity(u), u.file, u.symbol, u.line, u.inputHash)
  }

  ghost function Location(u: Unit): (string, int, int, int) {
    (u.file, u.line, u.regionIndex, u.sourceStart)
  }

  ghost function PairKeys(rows: seq<PairRow>): (keys: seq<(int, int)>)
    ensures |keys| == |rows|
  {
    seq(|rows|, k requires 0 <= k < |rows| => (rows[k].left, rows[k].right))
  }

  ghost function VectorKeys(rows: seq<VectorRow>): (keys: seq<Hash>)
    ensures |keys| == |rows|
  {
    seq(|rows|, k requires 0 <= k < |rows| => rows[k].inputHash)
  }

  ghost function UnitHashes(units: seq<Unit>): seq<Hash> {
    seq(|units|, k requires 0 <= k < |units| => units[k].inputHash)
  }

  ghost predicate CountersNonNegative(s: Stats) {
    s.functions >= 0 && s.uniqueInputs >= 0 && s.cacheHits >= 0 && s.modelLoadAttempts >= 0 && s.inferredWindows >= 0
  }

  /** The source manifest, the options, the profile and the counters. */
  ghost predicate ValidConfiguration(o: Observation, f: Foreign, allowIncomplete: bool) {
    var g := o.globalResult;
    2 <= |o.unitManifest| <= 300 &&
    o.unitManifestHash == f.unitsDigest(o.unitManifest) &&
    1 <= |o.sourceManifest| <= 100 &&
    (forall name :: name in o.sourceManifest ==> SourceParts(name, f.casefold).Some?) &&
    (allowIncomplete || (o.coverageComplete && o.errors == [])) &&
    o.globalRetrieval &&
    CountersNonNegative(o.stats) && CountersNonNegative(g.stats) &&
    g.profile == o.profile && g.sourceManifest == o.sourceManifest &&
    g.coverageComplete == o.coverageComplete && g.errors == o.errors &&
    o.globalOptions == Options(0.9, false, None, "all") && o.profile.comparisonScope == "all" &&
    g.stats.neighbors == Null && o.stats.retrieval == "requested_pair_cosine" &&
    1 <= o.profile.dimension <= 4096
  }

  ghost predicate WellFormedUnit(o: Observation, f: Foreign, u: Unit) {
    u.symbol != "" && u.line >= 1 && u.regionIndex >= 0 && u.sourceStart >= 0 &&
    SourceParts(u.file, f.casefold).Some? && u.file in o.sourceManifest
  }

  /** The size limits on reported families (lines 127-144). */
  ghost predicate FamilyBounds(n: nat, families: seq<Family>) {
    |families| <= n / 2 && forall k :: 0 <= k < |families| ==> 2 <= |families[k].members| <= n
  }

  /** Both backends describe exactly the captured units, under pairwise different ids and locations. */
  ghost predicate ValidCohort(o: Observation, f: Foreign) {
    var n, g := |o.unitManifest|, o.globalResult;
    o.unitInputHashes == UnitHashes(o.unitManifest) &&
    o.functions == n && o.stats.functions == n && g.stats.functions == n &&
    o.stats.uniqueInputs == |Elements(o.unitInputHashes)| && g.stats.uniqueInputs == |Elements(o.unitInputHashes)| &&
    |o.requestedInputs| == n && |g.inputs| == n &&
    (forall k :: 0 <= k < n ==>
      WellFormedUnit(o, f, o.unitManifest[k]) &&
      o.requestedInputs[k] == MemberOf(f, o.unitManifest[k]) && g.inputs[k] == MemberOf(f, o.unitManifest[k])) &&
    (forall k, l :: 0 <= k < l < n ==>
      g.inputs[k].id != g.inputs[l].id && Location(o.unitManifest[k]) != Location(o.unitManifest[l])) &&
    g.stats.modelLoadAttempts == 0 && g.stats.inferredWindows == 0 &&
    g.stats.cacheHits == |Elements(o.unitInputHashes)| && g.stats.retrieval == "tiled_exact_cosine"
  }

  /** One vector row per input hash, covering every active input. */
  ghost predicate ValidVectors(o: Observation, f: Foreign) {
    |o.cachedVectors| <= 2000 && Distinct(VectorKeys(o.cachedVectors)) &&
    (forall k :: 0 <= k < |o.cachedVectors| ==> |o.cachedVectors[k].spans| <= 16384) &&
    o.vectorManifestHash == f.vectorsDigest(o.cachedVectors) &&
    Elements(o.unitInputHashes) <= Elements(VectorKeys(o.cachedVectors))
  }

  /** One score in [-1, 1] for every unordered pair of functions. */
  ghost predicate ValidPairs(o: Observation, f: Foreign) {
    CoversOnce(|o.unitManifest|, PairKeys(o.pairScores)) &&
    (forall k :: 0 <= k < |o.pairScores| ==> -1.0 <= o.pairScores[k].score <= 1.0) &&
    o.pairCount == |o.pairScores| &&
    o.pairScoresHash == f.pairsDigest(o.pairScores) && o.pairAbstentions == 0
  }

  /** Everything but the size limits on reported families. */
  ghost predicate ValidApartFromFamilies(o: Observation, f: Foreign, allowIncomplete: bool) {
    ValidConfiguration(o, f, allowIncomplete) && ValidCohort(o, f) && ValidVectors(o, f) && ValidPairs(o, f)
  }

  ghost predicate ValidObservation(o: Observation, f: Foreign, allowIncomplete: bool) {
    ValidApartFromFamilies(o, f, allowIncomplete) && FamilyBounds(|o.unitManifest|, o.globalResult.families)
  }

  // ----- The validator -----

  method ExpectedCohort(o: Observation, f: Foreign) returns (expected: Option<seq<Member>>)
    ensures expected.Some? <==>
            forall k :: 0 <= k < |o.unitManifest| ==> WellFormedUnit(o, f, o.unitManifest[k])
    ensures expected.Some? ==>
            |expected.value| == |o.unitManifest| &&
            forall k :: 0 <= k < |o.unitManifest| ==> expected.value[k] == MemberOf(f, o.unitManifest[k])
  {
    var list := [];
    for k := 0 to |o.unitManifest|
      invariant |list| == k
      invariant forall l :: 0 <= l < k ==>
        WellFormedUnit(o, f, o.unitManifest[l]) && list[l] == MemberOf(f, o.unitManifest[l])
    {
      var unit := o.unitManifest[k];
      if unit.symbol == "" || unit.line < 1 || unit.regionIndex < 0 || unit.sourceStart < 0 {
        return None;
      }
      var parts := SourceParts(unit.file, f.casefold);
      if parts.None? || unit.file !in o.sourceManifest {
        return None;
      }
      list := list + [Member(f.identity(unit), unit.file, unit.symbol, unit.line, unit.inputHash)];
    }
    return Some(list);
  }

  lemma CohortForces(o: Observation, f: Foreign, expected: seq<Member>, ids: seq<Hash>,
                     locations: seq<(string, int, int, int)>)
    requires |expected| == |ids| == |locations| == |o.unitManifest|
    requires forall k :: 0 <= k < |expected| ==>
      expected[k] == MemberOf(f, o.unitManifest[k]) && ids[k] == expected[k].id
    requires forall k :: 0 <= k < |expected| ==> locations[k] == Location(o.unitManifest[k])
    ensures ValidCohort(o, f) ==>
              o.requestedInputs == expected && o.globalResult.inputs == expected && Distinct(ids) && Distinct(locations)
  {
    if ValidCohort(o, f) {
      assert o.requestedInputs == expected && o.globalResult.inputs == expected;
      assert forall k :: 0 <= k < |ids| ==> ids[k] == o.globalResult.inputs[k].id;
    }
  }

  method CheckCohort(o: Observation, f: Foreign) returns (ok: bool)
    ensures ok <==> ValidCohort(o, f)
  {
    hide WellFormedUnit;
    var n, g := |o.unitManifest|, o.globalResult;
    var hashes := seq(n, k requires 0 <= k < n => o.unitManifest[k].inputHash);
    assert hashes == UnitHashes(o.unitManifest);
    if o.unitInputHashes != hashes || o.functions != n || o.stats.functions != n ||
       o.stats.uniqueInputs != |Elements(hashes)| {
      return false;
    }
    var expected := ExpectedCohort(o, f);
    if expected.None? {
      return false;
    }
    var ids := seq(n, k requires 0 <= k < n => expected.value[k].id);
    var locations := seq(n, k requires 0 <= k < n =>
      (o.unitManifest[k].file, o.unitManifest[k].line, o.unitManifest[k].regionIndex, o.unitManifest[k].sourceStart));
    DistinctSize(ids);
    DistinctSize(locations);
    CohortForces(o, f, expected.value, ids, locations);
    if o.requestedInputs != expected.value || g.inputs != expected.value || |Elements(ids)| != n ||
       |Elements(locations)| != n || g.stats.functions != n || g.stats.uniqueInputs != |Elements(hashes)| {
      return false;
    }
    assert forall k :: 0 <= k < n ==> ids[k] == g.inputs[k].id && locations[k] == Location(o.unitManifest[k]);
    return g.stats.modelLoadAttempts == 0 && g.stats.inferredWindows == 0 &&
      g.stats.cacheHits == |Elements(hashes)| && g.stats.retrieval == "tiled_exact_cosine";
  }

  method CheckVectors(o: Observation, f: Foreign) returns (ok: bool)
    ensures ok <==> ValidVectors(o, f)
  {
    if |o.cachedVectors| > MAX_CACHE_ROWS {
      return false;
    }
    ghost var keys := VectorKeys(o.cachedVectors);
    var seen: set<Hash> := {};
    for k := 0 to |o.cachedVectors|
      invariant seen == Elements(keys[..k]) && Distinct(keys[..k])
      invariant forall l :: 0 <= l < k ==> |o.cachedVectors[l].spans| <= 16384
    {
      var row := o.cachedVectors[k];
      assert keys[..k + 1] == keys[..k] + [row.inputHash];
      if row.inputHash in seen || |row.spans| > 16384 {
        if row.inputHash in seen {
          ghost var l :| 0 <= l < k && keys[..k][l] == row.inputHash;
          assert keys[l] == keys[k];
        }
        return false;
      }
      ElementsAppend(keys[..k], row.inputHash);
      seen := seen + {row.inputHash};
    }
    assert keys[..|o.cachedVectors|] == keys;
    return o.vectorManifestHash == f.vectorsDigest(o.cachedVectors) && Elements(o.unitInputHashes) <= seen;
  }

  method CheckPairs(o: Observation, f: Foreign) returns (ok: bool)
    ensures ok <==> ValidPairs(o, f)
  {
    var n := |o.unitManifest|;
    var universe := Combinations(n);
    ghost var keys := PairKeys(o.pairScores);
    if |o.pairScores| != |universe| {
      if CoversOnce(n, keys) {
        UniverseFacts(n);
        CoveringsPermute(n, keys, universe);
        SameLength(keys, universe);
        assert false;
      }
      return false;
    }
    var actual: seq<(int, int)> := [];
    for k := 0 to |o.pairScores|
      invariant actual == keys[..k]
      invariant forall l :: 0 <= l < k ==> -1.0 <= o.pairScores[l].score <= 1.0
    {
      var row := o.pairScores[k];
      if !(0 <= row.left < row.right < n) || !(-1.0 <= row.score <= 1.0) {
        assert keys[k] == (row.left, row.right);
        return false;
      }
      actual := actual + [(row.left, row.right)];
    }
    assert actual == keys;
    SortedUniverse(n, keys);
    if Sorted(actual, Lexicographic) != universe || o.pairCount != |universe| {
      return false;
    }
    return o.pairScoresHash == f.pairsDigest(o.pairScores) && o.pairAbstentions == 0;
  }

  /** Lines 60-126 and 145-147, without the cohort and the families. */
  method CheckConfiguration(o: Observation, f: Foreign, allowIncomplete: bool) returns (ok: bool)
    ensures ok <==> ValidConfiguration(o, f, allowIncomplete)
  {
    var g := o.globalResult;
    if !(2 <= |o.unitManifest| <= 300) || o.unitManifestHash != f.unitsDigest(o.unitManifest) {
      return false;
    }
    if !(1 <= |o.sourceManifest| <= 100) {
      return false;
    }
    var plain := CheckSources(o.sourceManifest, f);
    if !plain {
      return false;
    }
    if !allowIncomplete && (!o.coverageComplete || o.errors != []) {
      return false;
    }
    if !o.globalRetrieval {
      return false;
    }
    var requested := CheckCounters(o.stats);
    var retrieved := CheckCounters(g.stats);
    if !requested || !retrieved {
      return false;
    }
    if g.profile != o.profile || g.sourceManifest != o.sourceManifest ||
       g.coverageComplete != o.coverageComplete || g.errors != o.errors {
      return false;
    }
    if o.globalOptions != GLOBAL_OPTIONS || o.profile.comparisonScope != "all" ||
       g.stats.neighbors != Null || o.stats.retrieval != "requested_pair_cosine" {
      return false;
    }
    return 1 <= o.profile.dimension <= 4096;
  }

  /** Lines 69-76. */
  method CheckSources(sources: map<string, Hash>, f: Foreign) returns (ok: bool)
    ensures ok <==> forall name :: name in sources ==> SourceParts(name, f.casefold).Some?
  {
    var names := Listing(sources.Keys);
    for k := 0 to |names|
      invariant forall l :: 0 <= l < k ==> SourceParts(names[l], f.casefold).Some?
    {
      assert names[k] in Elements(names);
      var parts := SourceParts(names[k], f.casefold);
      if parts.None? {
        return false;
      }
    }
    assert forall name :: name in sources <==> name in Elements(names);
    return true;
  }

  /** Lines 101-112. */
  method CheckCounters(s: Stats) returns (ok: bool)
    ensures ok <==> CountersNonNegative(s)
  {
    var counters := [s.functions, s.uniqueInputs, s.cacheHits, s.modelLoadAttempts, s.inferredWindows];
    for k := 0 to |counters|
      invariant forall l :: 0 <= l < k ==> counters[l] >= 0
    {
      if counters[k] < 0 {
        return false;
      }
    }
    assert counters[0] >= 0 && counters[1] >= 0 && counters[2] >= 0 && counters[3] >= 0 && counters[4] >= 0;
    return true;
  }

  /** Lines 127-144. */
  method CheckFamilySizes(n: nat, families: seq<Family>) returns (ok: bool)
    ensures ok <==> FamilyBounds(n, families)
  {
    if |families| > n / 2 {
      return false;
    }
    for k := 0 to |families|
      invariant forall l :: 0 <= l < k ==> 2 <= |families[l].members| <= n
    {
      if !(2 <= |families[k].members| <= n) {
        return false;
      }
    }
    return true;
  }

  method ValidateObservation(o: Observation, f: Foreign, allowIncomplete: bool) returns (ok: bool)
    ensures ok <==> ValidObservation(o, f, allowIncomplete)
  {
    hide ValidConfiguration, FamilyBounds, ValidCohort, ValidVectors, ValidPairs;
    var configuration := CheckConfiguration(o, f, allowIncomplete);
    var families := CheckFamilySizes(|o.unitManifest|, o.globalResult.families);
    if !configuration || !families {
      return false;
    }
    var cohort := CheckCohort(o, f);
    var vectors := CheckVectors(o, f);
    var pairs := CheckPairs(o, f);
    return cohort && vectors && pairs;
  }
}
