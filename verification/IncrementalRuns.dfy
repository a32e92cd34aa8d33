/**
 Comparison of consecutive observations of one incremental run
 (scripts/body_qualification_metrics.py, lines 263-307).
 */
module IncrementalRuns {
  import opened Wrappers
  import opened FiniteSets
  import opened Selections
  import opened SourcePaths
  import opened Observations

  type HashPair = (Hash, Hash)

  /** `sorted((a, b))` as a tuple: the unordered pair of two input hashes. */
  function Key(a: Hash, b: Hash): (key: HashPair)
    ensures key.0 <= key.1 && (key == (a, b) || key == (b, a))
  {
    if a <= b then (a, b) else (b, a)
  }

  /** The part of an observation that scores depend on: the input hashes by position, and the score rows. */
  datatype Scoring = Scoring(hashes: seq<Hash>, rows: seq<PairRow>)

  function ScoringOf(o: Observation): Scoring {
    Scoring(o.unitInputHashes, o.pairScores)
  }

  /** Every unordered pair of positions has exactly one row. */
  ghost predicate Complete(s: Scoring) {
    CoversOnce(|s.hashes|, PairKeys(s.rows))
  }

  /** The rows index the hash list, as coverage guarantees. */
  ghost predicate Indexed(s: Scoring) {
    forall k :: 0 <= k < |s.rows| ==> 0 <= s.rows[k].left < s.rows[k].right < |s.hashes|
  }

  lemma CompleteIndexed(s: Scoring)
    requires Complete(s)
    ensures Indexed(s)
  {
    var keys := PairKeys(s.rows);
    forall k | 0 <= k < |s.rows| ensures 0 <= s.rows[k].left < s.rows[k].right < |s.hashes| {
      assert keys[k] == (s.rows[k].left, s.rows[k].right);
    }
  }

  lemma ValidComplete(o: Observation, f: Foreign, allowIncomplete: bool)
    requires ValidApartFromFamilies(o, f, allowIncomplete)
    ensures Complete(ScoringOf(o)) && Indexed(ScoringOf(o))
  {
    CompleteIndexed(ScoringOf(o));
  }

  ghost function RowKey(s: Scoring, k: nat): HashPair
    requires Indexed(s) && k < |s.rows|
  {
    Key(s.hashes[s.rows[k].left], s.hashes[s.rows[k].right])
  }

  ghost predicate HasRow(s: Scoring, key: HashPair)
    requires Indexed(s)
  {
    exists k :: 0 <= k < |s.rows| && RowKey(s, k) == key
  }

  /** Rows of two observations about the same inputs carry the same score. */
  ghost predicate SameScores(s: Scoring, t: Scoring)
    requires Indexed(s) && Indexed(t)
  {
    forall k, l :: 0 <= k < |s.rows| && 0 <= l < |t.rows| && RowKey(s, k) == RowKey(t, l) ==>
      s.rows[k].score == t.rows[l].score
  }

  /** The dictionary has a value for every row, agrees with every row and has nothing else. */
  ghost predicate IsScoreTable(s: Scoring, table: map<HashPair, real>)
    requires Indexed(s)
  {
    (forall key :: key in table <==> HasRow(s, key)) &&
    forall k :: 0 <= k < |s.rows| ==> RowKey(s, k) in table && table[RowKey(s, k)] == s.rows[k].score
  }

  /** Refused exactly when identical model inputs got different scores. */
  method Scores(s: Scoring) returns (answer: Option<map<HashPair, real>>)
    requires Indexed(s)
    ensures answer.Some? <==> SameScores(s, s)
    ensures answer.Some? ==> IsScoreTable(s, answer.value)
  {
    var table: map<HashPair, real> := map[];
    for k := 0 to |s.rows|
      invariant forall key :: key in table <==> exists l :: 0 <= l < k && RowKey(s, l) == key
      invariant forall l :: 0 <= l < k ==> RowKey(s, l) in table && table[RowKey(s, l)] == s.rows[l].score
    {
      var key, value := Key(s.hashes[s.rows[k].left], s.hashes[s.rows[k].right]), s.rows[k].score;
      assert key == RowKey(s, k);
      if key in table && table[key] != value {
        return None;
      }
      table := table[key := value];
    }
    return Some(table);
  }

  // ----- Which input pairs have a score -----

  ghost predicate Repeated(s: Scoring, h: Hash) {
    exists i, j :: 0 <= i < j < |s.hashes| && s.hashes[i] == h && s.hashes[j] == h
  }

  /** Coverage: any two positions have a score row between them. */
  lemma PositionsHaveRow(s: Scoring, i: nat, j: nat)
    requires Complete(s) && Indexed(s) && i < j < |s.hashes|
    ensures HasRow(s, Key(s.hashes[i], s.hashes[j]))
  {
    var keys := PairKeys(s.rows);
    assert (i, j) in keys;
    var k :| 0 <= k < |keys| && keys[k] == (i, j);
    assert RowKey(s, k) == Key(s.hashes[i], s.hashes[j]);
  }

  /** Exactly the pairs of present inputs are scored, a self-pair only when its input is duplicated. */
  lemma RowsExactly(s: Scoring, a: Hash, b: Hash)
    requires Complete(s) && Indexed(s)
    ensures HasRow(s, Key(a, b)) <==> a in s.hashes && b in s.hashes && (a != b || Repeated(s, a))
  {
    if a in s.hashes && b in s.hashes && a != b {
      var i :| 0 <= i < |s.hashes| && s.hashes[i] == a;
      var j :| 0 <= j < |s.hashes| && s.hashes[j] == b;
      PositionsHaveRow(s, if i < j then i else j, if i < j then j else i);
    }
    if a == b && Repeated(s, a) {
      var i, j :| 0 <= i < j < |s.hashes| && s.hashes[i] == a && s.hashes[j] == a;
      PositionsHaveRow(s, i, j);
    }
    if HasRow(s, Key(a, b)) {
      var k :| 0 <= k < |s.rows| && RowKey(s, k) == Key(a, b);
      assert s.hashes[s.rows[k].left] in s.hashes && s.hashes[s.rows[k].right] in s.hashes;
    }
  }

  // ----- compare_unchanged -----

  /** The positions of the units of one file. */
  ghost function PositionsIn(units: seq<Unit>, file: string): set<int> {
    set k | 0 <= k < |units| && units[k].file == file
  }

  ghost predicate SameSource(before: Observation, after: Observation, name: string) {
    name in before.sourceManifest && name in after.sourceManifest &&
    before.sourceManifest[name] == after.sourceManifest[name]
  }

  /** The units of the file, in manifest order, are the same in both manifests. */
  ghost predicate SameUnitsIn(before: seq<Unit>, after: seq<Unit>, file: string) {
    exists units :: Selects(before, PositionsIn(before, file), units) && Selects(after, PositionsIn(after, file), units)
  }

  ghost predicate SameUnits(before: Observation, after: Observation) {
    forall name :: SameSource(before, after, name) ==> SameUnitsIn(before.unitManifest, after.unitManifest, name)
  }

  /** The part of an observation that cached vectors depend on. */
  datatype Vectors = Vectors(hashes: seq<Hash>, rows: seq<VectorRow>)

  function VectorsOf(o: Observation): Vectors {
    Vectors(o.unitInputHashes, o.cachedVectors)
  }

  ghost predicate Covered(v: Vectors) {
    Distinct(VectorKeys(v.rows)) && Elements(v.hashes) <= Elements(VectorKeys(v.rows))
  }

  ghost predicate Describes(v: Vectors, h: Hash, k: int) {
    0 <= k < |v.rows| && v.rows[k].inputHash == h && h in v.hashes
  }

  ghost predicate SameVectors(v: Vectors, w: Vectors) {
    forall h, k, l :: Describes(v, h, k) && Describes(w, h, l) ==> v.rows[k] == w.rows[l]
  }

  ghost predicate AgreeingScores(s: Scoring, t: Scoring) {
    Indexed(s) && Indexed(t) && SameScores(s, s) && SameScores(t, t) && SameScores(s, t)
  }

  /** Beyond validity: the same profile, units of unchanged files, vectors and scores. */
  ghost predicate NothingDrifted(before: Observation, after: Observation) {
    before.profile == after.profile && SameUnits(before, after) &&
    SameVectors(VectorsOf(before), VectorsOf(after)) && AgreeingScores(ScoringOf(before), ScoringOf(after))
  }

  /** What a passed comparison of two observations establishes. */
  ghost predicate Unchanged(before: Observation, after: Observation, f: Foreign, allowIncomplete: bool) {
    ValidObservation(before, f, allowIncomplete) && ValidObservation(after, f, allowIncomplete) &&
    NothingDrifted(before, after)
  }

  datatype Comparison = Comparison(sharedInputs: nat, sharedInputPairs: nat, selectedSourceComplete: bool)

  ghost function SharedInputs(s: Scoring, t: Scoring): set<Hash> {
    Elements(s.hashes) * Elements(t.hashes)
  }

  /** The inputs that occur at two positions of both cohorts. */
  ghost function SharedDuplicates(s: Scoring, t: Scoring): set<Hash> {
    set h | h in SharedInputs(s, t) && Repeated(s, h) && Repeated(t, h)
  }

  /** `{row[0]: row[1:] for row in rows}`. */
  method VectorTable(rows: seq<VectorRow>) returns (table: map<Hash, nat>)
    requires Distinct(VectorKeys(rows))
    ensures table.Keys == Elements(VectorKeys(rows))
    ensures forall h :: h in table ==> table[h] < |rows| && rows[table[h]].inputHash == h
  {
    table := map[];
    ghost var keys := VectorKeys(rows);
    for k := 0 to |rows|
      invariant table.Keys == Elements(keys[..k])
      invariant forall h :: h in table ==> table[h] < |rows| && rows[table[h]].inputHash == h
    {
      assert keys[..k + 1] == keys[..k] + [keys[k]];
      ElementsAppend(keys[..k], keys[k]);
      table := table[rows[k].inputHash := k];
    }
    assert keys[..|rows|] == keys;
  }

  /** `[item for item in units if item["file"] == file]`. */
  method UnitsOf(units: seq<Unit>, file: string) returns (list: seq<Unit>)
    ensures Selects(units, PositionsIn(units, file), list)
  {
    list := [];
    SelectNone(units);
    ghost var done: set<int> := {};
    for k := 0 to |units|
      invariant done == set l | 0 <= l < k && units[l].file == file
      invariant Selects(units, done, list)
    {
      if units[k].file == file {
        SelectMore(units, done, list, k);
        list := list + [units[k]];
        done := done + {k};
      }
    }
  }

  method CheckUnits(before: Observation, after: Observation) returns (same: bool)
    ensures same <==> SameUnits(before, after)
  {
    hide PositionsIn, Selects;
    var names := Listing(before.sourceManifest.Keys);
    for k := 0 to |names|
      invariant forall l :: 0 <= l < k && SameSource(before, after, names[l]) ==>
                              SameUnitsIn(before.unitManifest, after.unitManifest, names[l])
    {
      var name := names[k];
      assert name in Elements(names);
      if name in after.sourceManifest && after.sourceManifest[name] == before.sourceManifest[name] {
        var left := UnitsOf(before.unitManifest, name);
        var right := UnitsOf(after.unitManifest, name);
        UnitsDecide(before.unitManifest, after.unitManifest, name, left, right);
        if left != right {
          assert SameSource(before, after, name);
          return false;
        }
      }
    }
    forall name | SameSource(before, after, name)
      ensures SameUnitsIn(before.unitManifest, after.unitManifest, name)
    {
      assert name in Elements(names);
    }
    return true;
  }

  lemma UnitsDecide(before: seq<Unit>, after: seq<Unit>, file: string, left: seq<Unit>, right: seq<Unit>)
    requires Selects(before, PositionsIn(before, file), left) && Selects(after, PositionsIn(after, file), right)
    ensures SameUnitsIn(before, after, file) <==> left == right
  {
    hide PositionsIn, Selects;
    if SameUnitsIn(before, after, file) {
      var units :| Selects(before, PositionsIn(before, file), units) && Selects(after, PositionsIn(after, file), units);
      SelectionUnique(before, PositionsIn(before, file), left, units);
      SelectionUnique(after, PositionsIn(after, file), right, units);
    }
  }

  method CheckVectors(v: Vectors, w: Vectors) returns (same: bool)
    requires Covered(v) && Covered(w)
    ensures same <==> SameVectors(v, w)
  {
    var before := VectorTable(v.rows);
    var after := VectorTable(w.rows);
    var shared := Elements(v.hashes) * Elements(w.hashes);
    if exists h :: h in shared && v.rows[before[h]] != w.rows[after[h]] {
      ghost var h :| h in shared && v.rows[before[h]] != w.rows[after[h]];
      assert Describes(v, h, before[h]) && Describes(w, h, after[h]);
      return false;
    }
    forall h, k, l | Describes(v, h, k) && Describes(w, h, l) ensures v.rows[k] == w.rows[l] {
      assert h in shared;
      UniqueRow(v.rows, k, before[h]);
      UniqueRow(w.rows, l, after[h]);
    }
    return true;
  }

  lemma UniqueRow(rows: seq<VectorRow>, k: nat, l: nat)
    requires Distinct(VectorKeys(rows)) && k < |rows| && l < |rows| && rows[k].inputHash == rows[l].inputHash
    ensures k == l
  {
    var keys := VectorKeys(rows);
    assert keys[k] == keys[l];
  }

  method CheckScores(ghost s: Scoring, ghost t: Scoring, before: map<HashPair, real>, after: map<HashPair, real>)
    returns (same: bool)
    requires Indexed(s) && Indexed(t) && IsScoreTable(s, before) && IsScoreTable(t, after)
    ensures same <==> SameScores(s, t)
  {
    var expected := before.Keys * after.Keys;
    if exists key :: key in expected && before[key] != after[key] {
      ghost var key :| key in expected && before[key] != after[key];
      assert HasRow(s, key) && HasRow(t, key);
      return false;
    }
    forall k, l | 0 <= k < |s.rows| && 0 <= l < |t.rows| && RowKey(s, k) == RowKey(t, l)
      ensures s.rows[k].score == t.rows[l].score
    {
      assert RowKey(s, k) in expected;
    }
    return true;
  }

  /** What the result of a passed comparison reports. */
  ghost predicate Reports(c: Comparison, before: Observation, after: Observation) {
    var s, t := ScoringOf(before), ScoringOf(after);
    c.sharedInputs == |SharedInputs(s, t)| &&
    // k(k-1)/2 pairs of distinct shared inputs, plus one self-pair per input duplicated in both
    c.sharedInputPairs == PairCount(c.sharedInputs) + |SharedDuplicates(s, t)| &&
    c.selectedSourceComplete == (before.coverageComplete && after.coverageComplete)
  }

  /** The number of input pairs compared, when all scores agree. */
  method ComparePairs(s: Scoring, t: Scoring) returns (count: Option<nat>)
    requires Complete(s) && Complete(t)
    ensures count.Some? <==> AgreeingScores(s, t)
    ensures count.Some? ==>
      count.value == PairCount(|SharedInputs(s, t)|) + |SharedDuplicates(s, t)|
  {
    CompleteIndexed(s);
    CompleteIndexed(t);
    var before := Scores(s);
    var after := Scores(t);
    if before.None? || after.None? { return None; }
    var same := CheckScores(s, t, before.value, after.value);
    if !same { return None; }
    CoverageCount(s, t, before.value, after.value);
    return Some(|before.value.Keys * after.value.Keys|);
  }

  method CompareValidated(before: Observation, after: Observation) returns (r: Option<Comparison>)
    requires Complete(ScoringOf(before)) && Complete(ScoringOf(after))
    requires Covered(VectorsOf(before)) && Covered(VectorsOf(after))
    ensures r.Some? <==> NothingDrifted(before, after)
    ensures r.Some? ==> Reports(r.value, before, after)
  {
    if before.profile != after.profile {
      return None;
    }
    var units := CheckUnits(before, after);
    if !units { return None; }
    var vectors := CheckVectors(VectorsOf(before), VectorsOf(after));
    if !vectors { return None; }
    var s, t := ScoringOf(before), ScoringOf(after);
    var pairs := ComparePairs(s, t);
    if pairs.None? { return None; }
    var shared := Elements(before.unitInputHashes) * Elements(after.unitInputHashes);
    return Some(Comparison(|shared|, pairs.value, before.coverageComplete && after.coverageComplete));
  }

  method CompareUnchanged(before: Observation, after: Observation, f: Foreign, allowIncomplete: bool)
    returns (r: Option<Comparison>)
    ensures r.Some? <==> Unchanged(before, after, f, allowIncomplete)
    ensures r.Some? ==> Reports(r.value, before, after)
  {
    var validBefore := ValidateObservation(before, f, allowIncomplete);
    if !validBefore { return None; }
    var validAfter := ValidateObservation(after, f, allowIncomplete);
    if !validAfter { return None; }
    ValidComplete(before, f, allowIncomplete);
    ValidComplete(after, f, allowIncomplete);
    r := CompareValidated(before, after);
  }

  // ----- Coverage -----

  /** The compared keys are all pairs of distinct shared inputs and the self-pairs of shared duplicates. */
  lemma SharedKeys(s: Scoring, t: Scoring, before: map<HashPair, real>, after: map<HashPair, real>)
    requires Complete(s) && Complete(t) && Indexed(s) && Indexed(t)
    requires IsScoreTable(s, before) && IsScoreTable(t, after)
    ensures before.Keys * after.Keys == OrderedPairs(SharedInputs(s, t)) + Selves(SharedDuplicates(s, t))
  {
    forall key ensures key in before.Keys * after.Keys <==>
                       key in OrderedPairs(SharedInputs(s, t)) + Selves(SharedDuplicates(s, t)) {
      var (a, b) := key;
      if a <= b {
        assert Key(a, b) == key;
        RowsExactly(s, a, b);
        RowsExactly(t, a, b);
      } else {
        assert !HasRow(s, key);
      }
    }
  }

  ghost function Selves(hashes: set<Hash>): set<HashPair> {
    set h | h in hashes :: (h, h)
  }

  lemma {:induction false} SelvesSize(hashes: set<Hash>)
    ensures |Selves(hashes)| == |hashes|
  {
    if hashes != {} {
      var h := Pick(hashes);
      SelvesSize(hashes - {h});
      assert Selves(hashes) == Selves(hashes - {h}) + {(h, h)};
    }
  }

  /** With k shared inputs the number of compared pairs is k(k-1)/2 plus the shared duplicates. */
  lemma CoverageCount(s: Scoring, t: Scoring, before: map<HashPair, real>, after: map<HashPair, real>)
    requires Complete(s) && Complete(t) && Indexed(s) && Indexed(t)
    requires IsScoreTable(s, before) && IsScoreTable(t, after)
    ensures |before.Keys * after.Keys| == PairCount(|SharedInputs(s, t)|) + |SharedDuplicates(s, t)|
  {
    var shared, duplicates := SharedInputs(s, t), SharedDuplicates(s, t);
    SharedKeys(s, t, before, after);
    OrderedPairsSize(shared);
    SelvesSize(duplicates);
    assert OrderedPairs(shared) !! Selves(duplicates);
    assert |OrderedPairs(shared) + Selves(duplicates)| == |OrderedPairs(shared)| + |duplicates|;
  }

  /** So with k shared inputs the count lies between k(k-1)/2 and k(k+1)/2. */
  lemma CoverageBounds(before: Observation, after: Observation, c: Comparison)
    requires Reports(c, before, after)
    ensures c.sharedInputs * (c.sharedInputs - 1) / 2 <= c.sharedInputPairs <= c.sharedInputs * (c.sharedInputs + 1) / 2
  {
    SubsetSize(SharedDuplicates(ScoringOf(before), ScoringOf(after)),
      SharedInputs(ScoringOf(before), ScoringOf(after)));
    PairCountClosed(c.sharedInputs);
    PairCountClosed(c.sharedInputs + 1);
  }

  // ----- Chains of observations -----

  ghost predicate Chain(run: seq<Observation>, f: Foreign, allowIncomplete: bool) {
    |run| >= 2 && forall t :: 0 <= t < |run| - 1 ==> Unchanged(run[t], run[t + 1], f, allowIncomplete)
  }

  ghost predicate VectorChain(run: seq<Vectors>) {
    |run| >= 2 && (forall t :: 0 <= t < |run| ==> Covered(run[t])) &&
    forall t :: 0 <= t < |run| - 1 ==> SameVectors(run[t], run[t + 1])
  }

  lemma CoveredHasRow(v: Vectors, h: Hash) returns (k: nat)
    requires Covered(v) && h in v.hashes
    ensures Describes(v, h, k)
  {
    var keys := VectorKeys(v.rows);
    assert h in Elements(v.hashes);
    assert h in Elements(keys);
    k :| 0 <= k < |keys| && keys[k] == h;
  }

  lemma {:induction false} VectorsPersist(run: seq<Vectors>, h: Hash, k: nat, l: nat)
    requires VectorChain(run)
    requires forall t :: 0 <= t < |run| ==> h in run[t].hashes
    requires Describes(run[0], h, k) && Describes(run[|run| - 1], h, l)
    ensures run[0].rows[k] == run[|run| - 1].rows[l]
  {
    var last := |run| - 1;
    assert SameVectors(run[last - 1], run[last - 1 + 1]);
    if |run| > 2 {
      var m := CoveredHasRow(run[last - 1], h);
      var front := run[..last];
      assert forall t :: 0 <= t < |front| - 1 ==> SameVectors(front[t], front[t + 1]);
      VectorsPersist(front, h, k, m);
    }
  }

  /** An input present in every observation of a chain keeps its vector bytes and spans from first to last. */
  lemma ChainKeepsVectors(run: seq<Observation>, f: Foreign, allowIncomplete: bool, h: Hash, k: nat, l: nat)
    requires Chain(run, f, allowIncomplete)
    requires forall t :: 0 <= t < |run| ==> h in run[t].unitInputHashes
    requires Describes(VectorsOf(run[0]), h, k) && Describes(VectorsOf(run[|run| - 1]), h, l)
    ensures run[0].cachedVectors[k] == run[|run| - 1].cachedVectors[l]
  {
    var vectors := seq(|run|, t requires 0 <= t < |run| => VectorsOf(run[t]));
    forall t | 0 <= t < |run| ensures Covered(vectors[t]) {
      var u := if t == 0 then 0 else t - 1;
      UnchangedVectors(run[u], run[u + 1], f, allowIncomplete);
    }
    forall t | 0 <= t < |run| - 1 ensures SameVectors(vectors[t], vectors[t + 1]) {
      UnchangedVectors(run[t], run[t + 1], f, allowIncomplete);
    }
    VectorsPersist(vectors, h, k, l);
  }

  lemma UnchangedVectors(before: Observation, after: Observation, f: Foreign, allowIncomplete: bool)
    requires Unchanged(before, after, f, allowIncomplete)
    ensures Covered(VectorsOf(before)) && Covered(VectorsOf(after)) && SameVectors(VectorsOf(before), VectorsOf(after))
  {
  }

  ghost predicate ScoreChain(run: seq<Scoring>) {
    |run| >= 2 && (forall t :: 0 <= t < |run| ==> Complete(run[t]) && Indexed(run[t])) &&
    forall t :: 0 <= t < |run| - 1 ==> SameScores(run[t], run[t + 1])
  }

  lemma {:induction false} ScoresPersist(run: seq<Scoring>, key: HashPair, k: nat, l: nat)
    requires ScoreChain(run)
    requires forall t :: 0 <= t < |run| ==> HasRow(run[t], key)
    requires k < |run[0].rows| && RowKey(run[0], k) == key
    requires l < |run[|run| - 1].rows| && RowKey(run[|run| - 1], l) == key
    ensures run[0].rows[k].score == run[|run| - 1].rows[l].score
  {
    var last := |run| - 1;
    assert SameScores(run[last - 1], run[last - 1 + 1]);
    if |run| > 2 {
      assert HasRow(run[last - 1], key);
      var m :| 0 <= m < |run[last - 1].rows| && RowKey(run[last - 1], m) == key;
      var front := run[..last];
      assert forall t :: 0 <= t < |front| - 1 ==> SameScores(front[t], front[t + 1]);
      ScoresPersist(front, key, k, m);
    }
  }

  lemma UnchangedScores(before: Observation, after: Observation, f: Foreign, allowIncomplete: bool)
    requires Unchanged(before, after, f, allowIncomplete)
    ensures Complete(ScoringOf(before)) && Complete(ScoringOf(after))
    ensures Indexed(ScoringOf(before)) && Indexed(ScoringOf(after))
    ensures SameScores(ScoringOf(before), ScoringOf(after))
  {
    ValidComplete(before, f, allowIncomplete);
    ValidComplete(after, f, allowIncomplete);
  }

  ghost function ScoringsOf(run: seq<Observation>): seq<Scoring> {
    seq(|run|, t requires 0 <= t < |run| => ScoringOf(run[t]))
  }

  lemma ChainScorings(run: seq<Observation>, f: Foreign, allowIncomplete: bool)
    requires Chain(run, f, allowIncomplete)
    ensures ScoreChain(ScoringsOf(run))
  {
    var scorings := ScoringsOf(run);
    forall t | 0 <= t < |run| ensures Complete(scorings[t]) && Indexed(scorings[t]) {
      var u := if t == 0 then 0 else t - 1;
      UnchangedScores(run[u], run[u + 1], f, allowIncomplete);
    }
    forall t | 0 <= t < |run| - 1 ensures SameScores(scorings[t], scorings[t + 1]) {
      UnchangedScores(run[t], run[t + 1], f, allowIncomplete);
    }
  }

  /**
   Two inputs present throughout a chain keep their pair score from first to last when they are
   distinct; a self-pair keeps it when its input stays duplicated throughout.
   */
  lemma ChainKeepsScores(run: seq<Observation>, f: Foreign, allowIncomplete: bool, a: Hash, b: Hash, k: nat, l: nat)
    requires Chain(run, f, allowIncomplete)
    requires forall t :: 0 <= t < |run| ==> a in run[t].unitInputHashes && b in run[t].unitInputHashes
    requires a != b || forall t :: 0 <= t < |run| ==> Repeated(ScoringOf(run[t]), a)
    requires Indexed(ScoringOf(run[0])) && Indexed(ScoringOf(run[|run| - 1]))
    requires k < |run[0].pairScores| && RowKey(ScoringOf(run[0]), k) == Key(a, b)
    requires l < |run[|run| - 1].pairScores| && RowKey(ScoringOf(run[|run| - 1]), l) == Key(a, b)
    ensures forall t :: 0 <= t < |run| ==> Indexed(ScoringOf(run[t])) && HasRow(ScoringOf(run[t]), Key(a, b))
    ensures run[0].pairScores[k].score == run[|run| - 1].pairScores[l].score
  {
    var scorings := ScoringsOf(run);
    ChainScorings(run, f, allowIncomplete);
    forall t | 0 <= t < |run| ensures HasRow(scorings[t], Key(a, b)) {
      RowsExactly(scorings[t], a, b);
    }
    forall t | 0 <= t < |run| ensures Indexed(ScoringOf(run[t])) && HasRow(ScoringOf(run[t]), Key(a, b)) {
      assert scorings[t] == ScoringOf(run[t]);
    }
    ScoresPersist(scorings, Key(a, b), k, l);
  }
}
