/**
 The dense reference for global retrieval (scripts/body_qualification_metrics.py, lines 370-463).

 `ReportMatches` says, without mentioning any algorithm, what it means for a reported family list to
 describe the connected components of the threshold graph; `CheckReport` follows the script and is
 proved to accept exactly the matching reports.
 */
module Oracle {
  import opened Wrappers
  import opened FiniteSets
  import opened Sorting
  import opened Tables
  import opened SourcePaths
  import opened Observations
  import opened ThresholdGraph
  import opened IncrementalRuns

  const TOLERANCE: real := 0.000001
  const THRESHOLD: real := 0.9

  type Matrix = seq<seq<real>>

  ghost predicate Square(m: Matrix, n: nat) {
    |m| == n && forall i :: 0 <= i < n ==> |m[i]| == n
  }

  function Abs(x: real): (r: real)
    ensures r >= 0.0 && (r == x || r == -x)
  {
    if x < 0.0 then -x else x
  }

  // ----- The threshold graph -----

  ghost predicate Matching(inputs: seq<Member>, m: Matrix, i: int, j: int)
    requires Square(m, |inputs|) && 0 <= i < j < |inputs|
  {
    inputs[i].file != inputs[j].file && m[i][j] >= 0.9
  }

  ghost function MatchingEdges(inputs: seq<Member>, m: Matrix): set<Edge>
    requires Square(m, |inputs|)
  {
    set i, j | 0 <= i < |inputs| && 0 <= j < |inputs| && i < j && Matching(inputs, m, i, j) :: (i, j)
  }

  function AddNeighbor(neighbors: map<int, set<int>>, u: int, v: int): map<int, set<int>> {
    neighbors[u := (if u in neighbors then neighbors[u] else {}) + {v}]
  }

  lemma AdjacencyAddEdge(edges: set<Edge>, neighbors: map<int, set<int>>, i: int, j: int)
    requires IsAdjacency(edges, neighbors) && i != j
    ensures IsAdjacency(edges + {(i, j)}, AddNeighbor(AddNeighbor(neighbors, i, j), j, i))
  {
    var more, next := edges + {(i, j)}, AddNeighbor(AddNeighbor(neighbors, i, j), j, i);
    assert Touched(more) == Touched(edges) + {i, j};
    assert next.Keys == neighbors.Keys + {i, j};
    forall u, v | u in next ensures v in next[u] <==> Adjacent(more, u, v) {
      assert u !in neighbors ==> !Adjacent(edges, u, v);
    }
  }

  method BuildGraph(inputs: seq<Member>, m: Matrix) returns (edges: seq<Edge>, neighbors: map<int, set<int>>)
    requires Square(m, |inputs|)
    ensures Distinct(edges) && Elements(edges) == MatchingEdges(inputs, m)
    ensures IsAdjacency(Elements(edges), neighbors)
  {
    var pairs := Combinations(|inputs|);
    UniverseFacts(|inputs|);
    edges, neighbors := [], map[];
    for k := 0 to |pairs|
      invariant Distinct(edges) && IsAdjacency(Elements(edges), neighbors)
      invariant forall e :: e in Elements(edges) <==> e in pairs[..k] && Matching(inputs, m, e.0, e.1)
    {
      var (i, j) := pairs[k];
      assert pairs[..k + 1] == pairs[..k] + [(i, j)];
      if inputs[i].file != inputs[j].file && m[i][j] >= THRESHOLD {
        assert (i, j) !in pairs[..k];
        AdjacencyAddEdge(Elements(edges), neighbors, i, j);
        ElementsAppend(edges, (i, j));
        neighbors := AddNeighbor(AddNeighbor(neighbors, i, j), j, i);
        edges := edges + [(i, j)];
      }
    }
    assert pairs[..|pairs|] == pairs;
    CoversMembership(|inputs|, pairs);
  }

  // ----- Per-component edge counts and extrema -----

  ghost predicate InMatrix(edges: set<Edge>, m: Matrix) {
    forall e :: e in edges ==> 0 <= e.0 < |m| && 0 <= e.1 < |m[e.0]|
  }

  ghost function At(m: Matrix, e: Edge): real
    requires 0 <= e.0 < |m| && 0 <= e.1 < |m[e.0]|
  {
    m[e.0][e.1]
  }

  lemma MatchingInMatrix(inputs: seq<Member>, m: Matrix)
    requires Square(m, |inputs|)
    ensures InMatrix(MatchingEdges(inputs, m), m) && Ascending(MatchingEdges(inputs, m))
  {
  }

  datatype Shape = Shape(count: int, maximum: real, minimum: real)

  /** The number of edges inside `c` and their greatest and least scores. */
  ghost predicate IsShape(edges: set<Edge>, m: Matrix, c: set<int>, s: Shape)
    requires InMatrix(edges, m)
  {
    s.count == |Within(edges, c)| &&
    (forall e :: e in Within(edges, c) ==> s.minimum <= At(m, e) <= s.maximum) &&
    (exists e :: e in Within(edges, c) && At(m, e) == s.maximum) &&
    (exists e :: e in Within(edges, c) && At(m, e) == s.minimum)
  }

  lemma ShapeUnique(edges: set<Edge>, m: Matrix, c: set<int>, s: Shape, t: Shape)
    requires InMatrix(edges, m) && IsShape(edges, m, c, s) && IsShape(edges, m, c, t)
    ensures s == t
  {
  }

  /** Lines 412-413: collect the scores of the edges inside a group; `max` and `min` need one to exist. */
  method Measure(edges: seq<Edge>, m: Matrix, group: set<int>) returns (s: Shape)
    requires InMatrix(Elements(edges), m) && Distinct(edges) && Within(Elements(edges), group) != {}
    ensures IsShape(Elements(edges), m, group, s)
  {
    var values: seq<real> := [];
    ghost var inside: seq<Edge> := [];
    for k := 0 to |edges|
      invariant |values| == |inside| && Distinct(inside)
      invariant Elements(inside) == Within(Elements(edges[..k]), group)
      invariant forall l :: 0 <= l < |inside| ==> inside[l] in Elements(edges) && values[l] == At(m, inside[l])
    {
      var e := edges[k];
      assert edges[..k + 1] == edges[..k] + [e];
      assert e in Elements(edges);
      ElementsAppend(edges[..k], e);
      if e.0 in group && e.1 in group {
        assert e !in inside by {
          assert e !in edges[..k];
          assert forall x :: x in inside ==> x in Elements(inside);
        }
        ElementsAppend(inside, e);
        values := values + [m[e.0][e.1]];
        inside := inside + [e];
      }
    }
    assert edges[..|edges|] == edges;
    DistinctSize(inside);
    s := Shape(|values|, Maximum(values), Minimum(values));
    ghost var high :| 0 <= high < |values| && values[high] == s.maximum;
    ghost var low :| 0 <= low < |values| && values[low] == s.minimum;
    assert inside[high] in Elements(inside) && inside[low] in Elements(inside);
    forall e | e in Within(Elements(edges), group) ensures s.minimum <= At(m, e) <= s.maximum {
      assert e in Elements(inside);
      var l :| 0 <= l < |inside| && inside[l] == e;
      assert values[l] == At(m, e);
    }
  }

  function Maximum(values: seq<real>): (r: real)
    requires values != []
    ensures r in values && forall k :: 0 <= k < |values| ==> values[k] <= r
  {
    if |values| == 1 then values[0]
    else
      var rest := Maximum(values[1..]);
      assert forall k :: 1 <= k < |values| ==> values[k] == values[1..][k - 1];
      if values[0] >= rest then values[0] else rest
  }

  function Minimum(values: seq<real>): (r: real)
    requires values != []
    ensures r in values && forall k :: 0 <= k < |values| ==> r <= values[k]
  {
    if |values| == 1 then values[0]
    else
      var rest := Minimum(values[1..]);
      assert forall k :: 1 <= k < |values| ==> values[k] == values[1..][k - 1];
      if values[0] <= rest then values[0] else rest
  }

  // ----- What a matching report is -----

  ghost predicate DistinctIds(inputs: seq<Member>) {
    forall k, l :: 0 <= k < l < |inputs| ==> inputs[k].id != inputs[l].id
  }

  ghost predicate Positions(inputs: seq<Member>, c: set<int>) {
    forall i :: i in c ==> 0 <= i < |inputs|
  }

  ghost function MembersOf(inputs: seq<Member>, c: set<int>): set<Member>
    requires Positions(inputs, c)
  {
    set i | i in c :: inputs[i]
  }

  ghost predicate Plausible(f: Family) {
    -1.0 <= f.score <= 1.0 && -1.0 <= f.minEdgeSimilarity <= 1.0 && f.minEdgeSimilarity <= f.score
  }

  ghost predicate Near(reported: Shape, expected: Shape) {
    reported.count == expected.count &&
    -0.000001 <= reported.maximum - expected.maximum <= 0.000001 &&
    -0.000001 <= reported.minimum - expected.minimum <= 0.000001
  }

  ghost function ShapeOf(f: Family): Shape {
    Shape(f.matchingEdges, f.score, f.minEdgeSimilarity)
  }

  /** The family lists the inputs of `c`, each once and in any order, with the right count and extrema. */
  ghost predicate DescribesComponent(inputs: seq<Member>, m: Matrix, f: Family, c: set<int>)
    requires Square(m, |inputs|)
  {
    Positions(inputs, c) && Distinct(f.members) && Elements(f.members) == MembersOf(inputs, c) &&
    InMatrix(MatchingEdges(inputs, m), m) &&
    exists s :: IsShape(MatchingEdges(inputs, m), m, c, s) && Near(ShapeOf(f), s)
  }

  /** The families are the components of the threshold graph, one family each, in any order. */
  ghost predicate ReportMatches(inputs: seq<Member>, m: Matrix, families: seq<Family>)
    requires Square(m, |inputs|)
  {
    (forall k :: 0 <= k < |families| ==> Plausible(families[k])) &&
    exists groups :: MatchesGroups(inputs, m, families, groups)
  }

  ghost predicate MatchesGroups(inputs: seq<Member>, m: Matrix, families: seq<Family>, groups: seq<set<int>>)
    requires Square(m, |inputs|)
  {
    |groups| == |families| && AreComponents(MatchingEdges(inputs, m), groups) &&
    forall k :: 0 <= k < |families| ==> DescribesComponent(inputs, m, families[k], groups[k])
  }

  // ----- Families by their member ids -----

  /** `tuple(sorted(ids))` is represented by the set of the ids: repeated ids are refused on both sides. */
  type IdKey = set<Hash>

  ghost function GroupKey(inputs: seq<Member>, c: set<int>): IdKey
    requires Positions(inputs, c)
  {
    set i | i in c :: inputs[i].id
  }

  function IdsOf(members: seq<Member>): (ids: seq<Hash>)
    ensures |ids| == |members|
    ensures forall k :: 0 <= k < |members| ==> ids[k] == members[k].id
  {
    if members == [] then [] else IdsOf(members[..|members| - 1]) + [members[|members| - 1].id]
  }

  function MemberIds(f: Family): seq<Hash> {
    IdsOf(f.members)
  }

  ghost function FamilyKey(f: Family): IdKey {
    Elements(MemberIds(f))
  }

  lemma SameId(inputs: seq<Member>, i: int, j: int)
    requires DistinctIds(inputs) && 0 <= i < |inputs| && 0 <= j < |inputs| && inputs[i].id == inputs[j].id
    ensures i == j
  {
  }

  lemma SameMember(inputs: seq<Member>, x: Member, y: Member)
    requires DistinctIds(inputs) && x in inputs && y in inputs && x.id == y.id
    ensures x == y
  {
  }

  /** Distinct components never collide as dictionary keys. */
  lemma GroupKeyInjective(inputs: seq<Member>, c: set<int>, d: set<int>)
    requires DistinctIds(inputs) && Positions(inputs, c) && Positions(inputs, d)
    requires GroupKey(inputs, c) == GroupKey(inputs, d)
    ensures c == d
  {
    forall i ensures i in c <==> i in d {
      if i in c {
        assert inputs[i].id in GroupKey(inputs, d);
        var j :| j in d && inputs[j].id == inputs[i].id;
        SameId(inputs, i, j);
      }
      if i in d {
        assert inputs[i].id in GroupKey(inputs, c);
        var j :| j in c && inputs[j].id == inputs[i].id;
        SameId(inputs, i, j);
      }
    }
  }

  ghost predicate FromInputs(inputs: seq<Member>, f: Family) {
    forall k :: 0 <= k < |f.members| ==> f.members[k] in inputs
  }

  /** Among families of true members, having the ids of `c` is the same as listing the members of `c`. */
  lemma FamilyElements(inputs: seq<Member>, f: Family, c: set<int>)
    requires DistinctIds(inputs) && Positions(inputs, c) && FromInputs(inputs, f)
    ensures Elements(f.members) == MembersOf(inputs, c) <==> Elements(MemberIds(f)) == GroupKey(inputs, c)
    ensures Distinct(f.members) <==> Distinct(MemberIds(f))
  {
    var ids := MemberIds(f);
    if Elements(f.members) == MembersOf(inputs, c) {
      forall h ensures h in Elements(ids) <==> h in GroupKey(inputs, c) {
        if h in Elements(ids) {
          var k :| 0 <= k < |ids| && ids[k] == h;
          assert f.members[k] in Elements(f.members);
        }
        if h in GroupKey(inputs, c) {
          var i :| i in c && inputs[i].id == h;
          assert inputs[i] in Elements(f.members);
          var k :| 0 <= k < |f.members| && f.members[k] == inputs[i];
          assert ids[k] == h;
        }
      }
    }
    if Elements(ids) == GroupKey(inputs, c) {
      forall x ensures x in Elements(f.members) <==> x in MembersOf(inputs, c) {
        if x in Elements(f.members) {
          var k :| 0 <= k < |f.members| && f.members[k] == x;
          var i :| 0 <= i < |inputs| && inputs[i] == x;
          assert ids[k] in Elements(ids);
          var j :| j in c && inputs[j].id == x.id;
          SameId(inputs, i, j);
        }
        if x in MembersOf(inputs, c) {
          var i :| i in c && inputs[i] == x;
          assert inputs[i].id in Elements(ids);
          var k :| 0 <= k < |ids| && ids[k] == inputs[i].id;
          var j :| 0 <= j < |inputs| && inputs[j] == f.members[k];
          SameId(inputs, i, j);
        }
      }
    }
    if Distinct(f.members) {
      forall k, l | 0 <= k < l < |ids| ensures ids[k] != ids[l] {
        if ids[k] == ids[l] {
          SameMember(inputs, f.members[k], f.members[l]);
          assert false;
        }
      }
    }
    if Distinct(ids) {
      forall k, l | 0 <= k < l < |f.members| ensures f.members[k] != f.members[l] {
        assert ids[k] != ids[l];
      }
    }
  }

  /** The per-family checks of lines 416-437. */
  ghost predicate Acceptable(inputs: seq<Member>, f: Family) {
    Distinct(MemberIds(f)) && FromInputs(inputs, f) &&
    1 <= f.matchingEdges <= PairCount(|inputs|) && Plausible(f)
  }

  ghost predicate AllAcceptable(inputs: seq<Member>, families: seq<Family>) {
    forall k :: 0 <= k < |families| ==> Acceptable(inputs, families[k])
  }

  lemma AllAcceptableExtend(inputs: seq<Member>, families: seq<Family>, k: nat)
    requires k < |families| && AllAcceptable(inputs, families[..k]) && Acceptable(inputs, families[k])
    ensures AllAcceptable(inputs, families[..k + 1])
  {
    var more := families[..k + 1];
    forall l | 0 <= l < k + 1 ensures Acceptable(inputs, more[l]) {
      if l < k {
        assert families[..k][l] == more[l];
      }
    }
  }

  ghost function FamilyKeys(families: seq<Family>): (keys: seq<IdKey>)
    ensures |keys| == |families|
    ensures forall k :: 0 <= k < |families| ==> keys[k] == FamilyKey(families[k])
  {
    if families == [] then [] else FamilyKeys(families[..|families| - 1]) + [FamilyKey(families[|families| - 1])]
  }

  ghost function FamilyShapes(families: seq<Family>): (shapes: seq<Shape>)
    ensures |shapes| == |families|
    ensures forall k :: 0 <= k < |families| ==> shapes[k] == ShapeOf(families[k])
  {
    if families == [] then [] else FamilyShapes(families[..|families| - 1]) + [ShapeOf(families[|families| - 1])]
  }

  method CheckFamily(inputs: seq<Member>, indexed: map<Hash, Member>, f: Family) returns (ok: bool)
    requires DistinctIds(inputs)
    requires forall h :: h in indexed ==> indexed[h] in inputs && indexed[h].id == h
    requires forall k :: 0 <= k < |inputs| ==> inputs[k].id in indexed
    ensures ok <==> Acceptable(inputs, f)
  {
    var ids := MemberIds(f);
    DistinctSize(ids);
    if |ids| != |Elements(ids)| {
      return false;
    }
    for k := 0 to |f.members|
      invariant forall l :: 0 <= l < k ==> f.members[l] in inputs
    {
      var member := f.members[k];
      if member.id !in indexed || indexed[member.id] != member {
        if member in inputs {
          SameMember(inputs, member, indexed[member.id]);
          assert false;
        }
        return false;
      }
    }
    PairCountClosed(|inputs|);
    return 1 <= f.matchingEdges <= |inputs| * (|inputs| - 1) / 2 &&
      -1.0 <= f.score <= 1.0 && -1.0 <= f.minEdgeSimilarity <= 1.0 && f.minEdgeSimilarity <= f.score;
  }

  method IndexInputs(inputs: seq<Member>) returns (indexed: map<Hash, Member>)
    ensures forall h :: h in indexed ==> indexed[h] in inputs && indexed[h].id == h
    ensures forall k :: 0 <= k < |inputs| ==> inputs[k].id in indexed
  {
    indexed := map[];
    for k := 0 to |inputs|
      invariant forall h :: h in indexed ==> indexed[h] in inputs && indexed[h].id == h
      invariant forall l :: 0 <= l < k ==> inputs[l].id in indexed
    {
      indexed := indexed[inputs[k].id := inputs[k]];
    }
  }

  /** The first k families passed their checks and filled the dictionary. */
  ghost predicate ReadTo(inputs: seq<Member>, families: seq<Family>, k: nat, actual: map<IdKey, Shape>) {
    k <= |families| && AllAcceptable(inputs, families[..k]) &&
    IsTable(FamilyKeys(families)[..k], FamilyShapes(families)[..k], actual)
  }

  lemma ReadStart(inputs: seq<Member>, families: seq<Family>)
    ensures ReadTo(inputs, families, 0, map[])
  {
  }

  lemma ReadStep(inputs: seq<Member>, families: seq<Family>, k: nat, actual: map<IdKey, Shape>)
    requires k < |families| && ReadTo(inputs, families, k, actual)
    requires FamilyKey(families[k]) !in actual && Acceptable(inputs, families[k])
    ensures ReadTo(inputs, families, k + 1, actual[FamilyKey(families[k]) := ShapeOf(families[k])])
  {
    hide IsTable;
    var keys, shapes := FamilyKeys(families), FamilyShapes(families);
    AllAcceptableExtend(inputs, families, k);
    TableExtend(keys[..k], shapes[..k], actual, keys[k], shapes[k]);
    assert keys[..k + 1] == keys[..k] + [keys[k]] && shapes[..k + 1] == shapes[..k] + [shapes[k]];
  }

  lemma ReadRepeated(inputs: seq<Member>, families: seq<Family>, k: nat, actual: map<IdKey, Shape>)
    requires k < |families| && ReadTo(inputs, families, k, actual) && FamilyKey(families[k]) in actual
    ensures !Distinct(FamilyKeys(families))
  {
    hide IsTable;
    var keys := FamilyKeys(families);
    var l := TableLookup(keys[..k], FamilyShapes(families)[..k], actual, keys[k]);
    assert keys[l] == keys[k];
  }

  lemma ReadAll(inputs: seq<Member>, families: seq<Family>, actual: map<IdKey, Shape>)
    requires ReadTo(inputs, families, |families|, actual)
    ensures AllAcceptable(inputs, families) && IsTable(FamilyKeys(families), FamilyShapes(families), actual)
  {
    hide IsTable;
    var keys, shapes := FamilyKeys(families), FamilyShapes(families);
    assert families[..|families|] == families && keys[..|families|] == keys && shapes[..|families|] == shapes;
  }

  /** Lines 414-437: the dictionary the families fill. */
  method ReadFamilies(inputs: seq<Member>, families: seq<Family>) returns (reported: Option<map<IdKey, Shape>>)
    requires DistinctIds(inputs)
    ensures reported.Some? <==> Distinct(FamilyKeys(families)) && AllAcceptable(inputs, families)
    ensures reported.Some? ==> IsTable(FamilyKeys(families), FamilyShapes(families), reported.value)
  {
    hide ReadTo, Acceptable;
    var actual: map<IdKey, Shape> := map[];
    var indexed := IndexInputs(inputs);
    ReadStart(inputs, families);
    for k := 0 to |families|
      invariant ReadTo(inputs, families, k, actual)
    {
      var family := families[k];
      var key := Elements(MemberIds(family));
      if key in actual {
        ReadRepeated(inputs, families, k, actual);
        return None;
      }
      var ok := CheckFamily(inputs, indexed, family);
      if !ok {
        return None;
      }
      ReadStep(inputs, families, k, actual);
      actual := actual[key := Shape(family.matchingEdges, family.score, family.minEdgeSimilarity)];
    }
    ReadAll(inputs, families, actual);
    return Some(actual);
  }

  // ----- The check -----

  ghost predicate MeasuredOne(inputs: seq<Member>, m: Matrix, c: set<int>, key: IdKey, s: Shape)
    requires Square(m, |inputs|)
  {
    Positions(inputs, c) && key == GroupKey(inputs, c) &&
    InMatrix(MatchingEdges(inputs, m), m) && IsShape(MatchingEdges(inputs, m), m, c, s)
  }

  ghost predicate Measured(inputs: seq<Member>, m: Matrix, groups: seq<set<int>>, keys: seq<IdKey>, shapes: seq<Shape>)
    requires Square(m, |inputs|)
  {
    |groups| == |keys| == |shapes| &&
    forall k :: 0 <= k < |groups| ==> MeasuredOne(inputs, m, groups[k], keys[k], shapes[k])
  }

  lemma ComponentPositions(inputs: seq<Member>, m: Matrix, c: set<int>)
    requires Square(m, |inputs|) && IsComponent(MatchingEdges(inputs, m), c)
    ensures Positions(inputs, c)
  {
  }

  method MeasureOne(inputs: seq<Member>, m: Matrix, edges: seq<Edge>, group: set<int>)
    returns (key: IdKey, shape: Shape)
    requires Square(m, |inputs|) && Distinct(edges) && Elements(edges) == MatchingEdges(inputs, m)
    requires IsComponent(MatchingEdges(inputs, m), group)
    ensures MeasuredOne(inputs, m, group, key, shape)
  {
    ComponentPositions(inputs, m, group);
    MatchingInMatrix(inputs, m);
    ComponentEdgeBounds(MatchingEdges(inputs, m), group);
    shape := Measure(edges, m, group);
    key := set i | i in group :: inputs[i].id;
  }

  /** Lines 403-413: the dictionary of the true components. */
  method MeasureComponents(inputs: seq<Member>, m: Matrix, edges: seq<Edge>, groups: seq<set<int>>)
    returns (expected: map<IdKey, Shape>, ghost keys: seq<IdKey>, ghost shapes: seq<Shape>)
    requires Square(m, |inputs|) && DistinctIds(inputs)
    requires Distinct(edges) && Elements(edges) == MatchingEdges(inputs, m)
    requires AreComponents(MatchingEdges(inputs, m), groups)
    ensures Measured(inputs, m, groups, keys, shapes) && IsTable(keys, shapes, expected)
  {
    expected, keys, shapes := map[], [], [];
    for k := 0 to |groups|
      invariant Measured(inputs, m, groups[..k], keys, shapes) && IsTable(keys, shapes, expected)
    {
      var key, shape := MeasureOne(inputs, m, edges, groups[k]);
      FreshKey(inputs, m, groups, k, keys, shapes, key, shape);
      TableExtend(keys, shapes, expected, key, shape);
      keys, shapes := keys + [key], shapes + [shape];
      expected := expected[key := shape];
    }
    assert groups[..|groups|] == groups;
  }

  /** A later component's key was not used by an earlier one. */
  lemma FreshKey(inputs: seq<Member>, m: Matrix, groups: seq<set<int>>, k: nat,
                 keys: seq<IdKey>, shapes: seq<Shape>, key: IdKey, shape: Shape)
    requires Square(m, |inputs|) && DistinctIds(inputs) && k < |groups|
    requires AreComponents(MatchingEdges(inputs, m), groups)
    requires Measured(inputs, m, groups[..k], keys, shapes) && MeasuredOne(inputs, m, groups[k], key, shape)
    ensures key !in Elements(keys)
    ensures Measured(inputs, m, groups[..k + 1], keys + [key], shapes + [shape])
  {
    hide AreComponents, MeasuredOne, DistinctIds;
    if key in keys {
      var l :| 0 <= l < k && keys[l] == key;
      assert MeasuredOne(inputs, m, groups[..k][l], keys[l], shapes[l]);
      KeysApart(inputs, m, groups, l, k, key, shapes[l], shape);
    }
    forall l | 0 <= l < k + 1
      ensures MeasuredOne(inputs, m, groups[..k + 1][l], (keys + [key])[l], (shapes + [shape])[l])
    {
      if l < k {
        assert MeasuredOne(inputs, m, groups[..k][l], keys[l], shapes[l]);
      }
    }
  }

  /** Two different components never measure to the same key. */
  lemma KeysApart(inputs: seq<Member>, m: Matrix, groups: seq<set<int>>, l: nat, k: nat, key: IdKey, a: Shape, b: Shape)
    requires Square(m, |inputs|) && DistinctIds(inputs) && l < k < |groups|
    requires AreComponents(MatchingEdges(inputs, m), groups) && MeasuredOne(inputs, m, groups[l], key, a)
    ensures !MeasuredOne(inputs, m, groups[k], key, b)
  {
    ListingDistinct(MatchingEdges(inputs, m), groups);
    if MeasuredOne(inputs, m, groups[k], key, b) {
      GroupKeyInjective(inputs, groups[l], groups[k]);
      assert false;
    }
  }

  /** Lines 438-443. */
  ghost predicate Agreement(reported: map<IdKey, Shape>, expected: map<IdKey, Shape>) {
    Agree(reported, expected, Near)
  }

  /** The comparison itself: same keys, same counts, extrema within the tolerance. */
  method CompareShapes(reported: map<IdKey, Shape>, expected: map<IdKey, Shape>) returns (ok: bool)
    ensures ok <==> Agreement(reported, expected)
  {
    if reported.Keys != expected.Keys {
      return false;
    }
    var keys := Listing(expected.Keys);
    for k := 0 to |keys|
      invariant forall l :: 0 <= l < k ==>
        keys[l] in reported && keys[l] in expected && Near(reported[keys[l]], expected[keys[l]])
    {
      assert keys[k] in Elements(keys);
      var actual, true' := reported[keys[k]], expected[keys[k]];
      if actual.count != true'.count || Abs(actual.maximum - true'.maximum) > TOLERANCE ||
         Abs(actual.minimum - true'.minimum) > TOLERANCE {
        assert !Near(actual, true');
        return false;
      }
    }
    forall key | key in expected ensures Near(reported[key], expected[key]) {
      assert key in Elements(keys);
    }
    return true;
  }

  lemma {:induction false} MembersSize(inputs: seq<Member>, c: set<int>)
    requires DistinctIds(inputs) && Positions(inputs, c)
    ensures |MembersOf(inputs, c)| == |c|
  {
    if c != {} {
      var i := Pick(c);
      MembersSize(inputs, c - {i});
      assert MembersOf(inputs, c) == MembersOf(inputs, c - {i}) + {inputs[i]};
      forall j | j in c - {i} ensures inputs[j] != inputs[i] {
        if inputs[j] == inputs[i] {
          SameId(inputs, i, j);
          assert false;
        }
      }
    }
  }

  /** Every check on a single family, and on its size, passes when it describes a component. */
  lemma DescribedAcceptable(inputs: seq<Member>, m: Matrix, f: Family, c: set<int>)
    requires Square(m, |inputs|) && DistinctIds(inputs)
    requires IsComponent(MatchingEdges(inputs, m), c) && Plausible(f) && DescribesComponent(inputs, m, f, c)
    ensures Acceptable(inputs, f) && 2 <= |f.members| <= |inputs|
  {
    DescribedMembers(inputs, m, f, c);
    DescribedCount(inputs, m, f, c);
    AcceptableFrom(inputs, f, |c|);
  }

  lemma AcceptableFrom(inputs: seq<Member>, f: Family, size: nat)
    requires Distinct(MemberIds(f)) && FromInputs(inputs, f) && Plausible(f)
    requires 2 <= size <= |inputs| && 1 <= f.matchingEdges && f.matchingEdges <= PairCount(size)
    ensures Acceptable(inputs, f)
  {
    PairCountMonotone(size, |inputs|);
  }

  lemma DescribedCount(inputs: seq<Member>, m: Matrix, f: Family, c: set<int>)
    requires Square(m, |inputs|) && IsComponent(MatchingEdges(inputs, m), c) && DescribesComponent(inputs, m, f, c)
    ensures 2 <= |c| <= |inputs| && 1 <= f.matchingEdges && f.matchingEdges <= PairCount(|c|)
  {
    var edges := MatchingEdges(inputs, m);
    var s :| IsShape(edges, m, c, s) && Near(ShapeOf(f), s);
    MatchingInMatrix(inputs, m);
    ComponentEdgeBounds(edges, c);
    RangeSize(c, |inputs|);
  }

  lemma DescribedMembers(inputs: seq<Member>, m: Matrix, f: Family, c: set<int>)
    requires Square(m, |inputs|) && DistinctIds(inputs) && DescribesComponent(inputs, m, f, c)
    ensures Distinct(MemberIds(f)) && FromInputs(inputs, f) && FamilyKey(f) == GroupKey(inputs, c)
    ensures |f.members| == |c|
  {
    forall l | 0 <= l < |f.members| ensures f.members[l] in inputs {
      assert f.members[l] in Elements(f.members);
    }
    FamilyElements(inputs, f, c);
    MembersSize(inputs, c);
    DistinctSize(f.members);
  }

  /** A matching report passes all checks on single families, and its families have different keys. */
  lemma MatchReadable(inputs: seq<Member>, m: Matrix, families: seq<Family>, chosen: seq<set<int>>)
    requires Square(m, |inputs|) && DistinctIds(inputs) && MatchesGroups(inputs, m, families, chosen)
    requires forall k :: 0 <= k < |families| ==> Plausible(families[k])
    ensures AllAcceptable(inputs, families)
    ensures forall k :: 0 <= k < |families| ==> 2 <= |families[k].members| <= |inputs|
    ensures forall k :: 0 <= k < |families| ==>
              Positions(inputs, chosen[k]) && FamilyKey(families[k]) == GroupKey(inputs, chosen[k])
    ensures Distinct(FamilyKeys(families))
  {
    var edges := MatchingEdges(inputs, m);
    forall k | 0 <= k < |families|
      ensures Acceptable(inputs, families[k]) && 2 <= |families[k].members| <= |inputs|
      ensures Positions(inputs, chosen[k]) && FamilyKey(families[k]) == GroupKey(inputs, chosen[k])
    {
      DescribedMembers(inputs, m, families[k], chosen[k]);
      DescribedAcceptable(inputs, m, families[k], chosen[k]);
    }
    ListingDistinct(edges, chosen);
    forall k, l | 0 <= k < l < |families| ensures FamilyKey(families[k]) != FamilyKey(families[l]) {
      if FamilyKey(families[k]) == FamilyKey(families[l]) {
        GroupKeyInjective(inputs, chosen[k], chosen[l]);
        assert false;
      }
    }
  }

  /** Completeness of the comparison: a matching report agrees with the true components. */
  lemma MatchAgrees(inputs: seq<Member>, m: Matrix, families: seq<Family>, chosen: seq<set<int>>,
                    groups: seq<set<int>>, keys: seq<IdKey>, shapes: seq<Shape>,
                    expected: map<IdKey, Shape>, reported: map<IdKey, Shape>)
    requires Square(m, |inputs|) && DistinctIds(inputs) && MatchesGroups(inputs, m, families, chosen)
    requires forall k :: 0 <= k < |families| ==> Plausible(families[k])
    requires AreComponents(MatchingEdges(inputs, m), groups) && Measured(inputs, m, groups, keys, shapes)
    requires IsTable(keys, shapes, expected) && IsTable(FamilyKeys(families), FamilyShapes(families), reported)
    ensures Agreement(reported, expected)
  {
    hide IsTable, AreComponents, Plausible, AllAcceptable, Near;
    var familyKeys, familyShapes := FamilyKeys(families), FamilyShapes(families);
    MatchReadable(inputs, m, families, chosen);
    var image := ListingUnique(MatchingEdges(inputs, m), chosen, groups);
    forall k | 0 <= k < |familyKeys| ensures familyKeys[k] == keys[image[k]] {
      assert MeasuredOne(inputs, m, groups[image[k]], keys[image[k]], shapes[image[k]]);
    }
    forall k | 0 <= k < |families| ensures Near(familyShapes[k], shapes[image[k]]) {
      DescribedNear(inputs, m, families[k], groups[image[k]], keys[image[k]], shapes[image[k]]);
    }
    CorrespondingAgree(familyKeys, familyShapes, reported, keys, shapes, expected, Near, image);
  }

  lemma DescribedNear(inputs: seq<Member>, m: Matrix, f: Family, c: set<int>, key: IdKey, shape: Shape)
    requires Square(m, |inputs|) && DescribesComponent(inputs, m, f, c) && MeasuredOne(inputs, m, c, key, shape)
    ensures Near(ShapeOf(f), shape)
  {
    var s :| IsShape(MatchingEdges(inputs, m), m, c, s) && Near(ShapeOf(f), s);
    ShapeUnique(MatchingEdges(inputs, m), m, c, s, shape);
  }

  /** Soundness of the comparison: agreement pairs every family with its own component. */
  lemma AgreementMatches(inputs: seq<Member>, m: Matrix, families: seq<Family>,
                         groups: seq<set<int>>, keys: seq<IdKey>, shapes: seq<Shape>,
                         expected: map<IdKey, Shape>, reported: map<IdKey, Shape>)
    returns (chosen: seq<set<int>>)
    requires Square(m, |inputs|) && DistinctIds(inputs)
    requires forall k :: 0 <= k < |families| ==> FromInputs(inputs, families[k]) && Distinct(MemberIds(families[k]))
    requires AreComponents(MatchingEdges(inputs, m), groups) && Measured(inputs, m, groups, keys, shapes)
    requires IsTable(keys, shapes, expected) && IsTable(FamilyKeys(families), FamilyShapes(families), reported)
    requires Agreement(reported, expected)
    ensures MatchesGroups(inputs, m, families, chosen)
  {
    hide IsTable, Agree, MeasuredOne, DescribesComponent, AreComponents;
    var familyKeys, familyShapes := FamilyKeys(families), FamilyShapes(families);
    var image := AgreeingCorrespond(familyKeys, familyShapes, reported, keys, shapes, expected, Near);
    chosen := seq(|families|, k requires 0 <= k < |families| => groups[image[k]]);
    ListingReordered(MatchingEdges(inputs, m), chosen, groups, image);
    forall k | 0 <= k < |families| ensures DescribesComponent(inputs, m, families[k], chosen[k]) {
      MeasuredAt(inputs, m, groups, keys, shapes, image[k]);
      DescribesMeasured(inputs, m, families[k], groups[image[k]], keys[image[k]], shapes[image[k]]);
    }
  }

  lemma MeasuredAt(inputs: seq<Member>, m: Matrix, groups: seq<set<int>>, keys: seq<IdKey>, shapes: seq<Shape>, k: nat)
    requires Square(m, |inputs|) && Measured(inputs, m, groups, keys, shapes) && k < |groups|
    ensures MeasuredOne(inputs, m, groups[k], keys[k], shapes[k])
  {
  }

  lemma DescribesMeasured(inputs: seq<Member>, m: Matrix, f: Family, c: set<int>, key: IdKey, shape: Shape)
    requires Square(m, |inputs|) && DistinctIds(inputs) && MeasuredOne(inputs, m, c, key, shape)
    requires Distinct(MemberIds(f)) && FromInputs(inputs, f) && FamilyKey(f) == key && Near(ShapeOf(f), shape)
    ensures DescribesComponent(inputs, m, f, c)
  {
    FamilyElements(inputs, f, c);
  }

  /** The families passed their checks and agree with the measured components exactly when the report matches. */
  lemma ReportDecided(inputs: seq<Member>, m: Matrix, families: seq<Family>,
                      groups: seq<set<int>>, keys: seq<IdKey>, shapes: seq<Shape>,
                      expected: map<IdKey, Shape>, reported: Option<map<IdKey, Shape>>)
    requires Square(m, |inputs|) && DistinctIds(inputs)
    requires AreComponents(MatchingEdges(inputs, m), groups) && Measured(inputs, m, groups, keys, shapes)
    requires IsTable(keys, shapes, expected)
    requires reported.Some? <==> Distinct(FamilyKeys(families)) && AllAcceptable(inputs, families)
    requires reported.Some? ==> IsTable(FamilyKeys(families), FamilyShapes(families), reported.value)
    ensures reported.Some? && Agreement(reported.value, expected) <==> ReportMatches(inputs, m, families)
  {
    hide IsTable, Agree, Measured, AreComponents, MatchesGroups;
    if ReportMatches(inputs, m, families) {
      var chosen :| MatchesGroups(inputs, m, families, chosen);
      MatchReadable(inputs, m, families, chosen);
      MatchAgrees(inputs, m, families, chosen, groups, keys, shapes, expected, reported.value);
    }
    if reported.Some? && Agreement(reported.value, expected) {
      var chosen := AgreementMatches(inputs, m, families, groups, keys, shapes, expected, reported.value);
    }
  }

  /** Acceptance is exact: the script's comparison succeeds on the matching reports and on no others. */
  method CheckReport(inputs: seq<Member>, m: Matrix, families: seq<Family>)
    returns (ok: bool, familyCount: nat, edgeCount: nat)
    requires Square(m, |inputs|) && DistinctIds(inputs)
    ensures ok <==> ReportMatches(inputs, m, families)
    ensures edgeCount == |MatchingEdges(inputs, m)|
    ensures ok ==> familyCount == |families|
  {
    hide IsTable, Agree, Measured, AreComponents, ReportMatches, AllAcceptable, IsAdjacency;
    var edges, neighbors := BuildGraph(inputs, m);
    var groups := Components(Elements(edges), neighbors);
    ghost var keys, shapes;
    var expected;
    expected, keys, shapes := MeasureComponents(inputs, m, edges, groups);
    DistinctSize(edges);
    var reported := ReadFamilies(inputs, families);
    ReportDecided(inputs, m, families, groups, keys, shapes, expected, reported);
    ok := false;
    if reported.Some? {
      ok := CompareShapes(reported.value, expected);
    }
    edgeCount, familyCount := |edges|, |expected|;
    if ok {
      TableSize(FamilyKeys(families), FamilyShapes(families), reported.value);
      AgreeSize(reported.value, expected, Near);
    }
  }

  // ----- The size limits never refuse the truth -----

  ghost function UnionOf(groups: seq<set<int>>): set<int> {
    if groups == [] then {} else UnionOf(groups[..|groups| - 1]) + groups[|groups| - 1]
  }

  lemma {:induction false} UnionMembers(groups: seq<set<int>>, v: int)
    requires v in UnionOf(groups)
    ensures Listed(groups, v)
  {
    if groups != [] && v !in groups[|groups| - 1] {
      UnionMembers(groups[..|groups| - 1], v);
      var k :| 0 <= k < |groups| - 1 && v in groups[..|groups| - 1][k];
      assert v in groups[k];
    }
  }

  lemma {:induction false} UnionSize(groups: seq<set<int>>)
    requires forall k :: 0 <= k < |groups| ==> 2 <= |groups[k]|
    requires forall k, l :: 0 <= k < l < |groups| ==> groups[k] !! groups[l]
    ensures |UnionOf(groups)| >= 2 * |groups|
  {
    if groups != [] {
      var front, last := groups[..|groups| - 1], groups[|groups| - 1];
      UnionSize(front);
      forall v | v in UnionOf(front) ensures v !in last {
        UnionMembers(front, v);
        var k :| 0 <= k < |front| && v in front[k];
        assert groups[k] !! groups[|groups| - 1];
      }
      assert |UnionOf(front) + last| == |UnionOf(front)| + |last|;
    }
  }

  /** There are at most n//2 components, since each has two vertices of its own. */
  lemma ComponentLimit(inputs: seq<Member>, m: Matrix, groups: seq<set<int>>)
    requires Square(m, |inputs|) && AreComponents(MatchingEdges(inputs, m), groups)
    ensures |groups| <= |inputs| / 2
  {
    MatchingInMatrix(inputs, m);
    forall k | 0 <= k < |groups| ensures 2 <= |groups[k]| {
      ComponentEdgeBounds(MatchingEdges(inputs, m), groups[k]);
    }
    UnionSize(groups);
    forall v | v in UnionOf(groups) ensures 0 <= v < |inputs| {
      UnionMembers(groups, v);
      var k :| 0 <= k < |groups| && v in groups[k];
      ComponentPositions(inputs, m, groups[k]);
    }
    RangeSize(UnionOf(groups), |inputs|);
  }

  /** A matching report is never refused by the limits on family number and size. */
  lemma MatchWithinBounds(inputs: seq<Member>, m: Matrix, families: seq<Family>)
    requires Square(m, |inputs|) && DistinctIds(inputs) && ReportMatches(inputs, m, families)
    ensures FamilyBounds(|inputs|, families)
  {
    hide DescribesComponent, AreComponents, Acceptable;
    var chosen :| MatchesGroups(inputs, m, families, chosen);
    MatchReadable(inputs, m, families, chosen);
    ComponentLimit(inputs, m, chosen);
  }

  /** The family lists `c` with its exact edge count and extrema. */
  ghost predicate ExactlyDescribes(inputs: seq<Member>, m: Matrix, f: Family, c: set<int>)
    requires Square(m, |inputs|)
  {
    Positions(inputs, c) && Distinct(f.members) && Elements(f.members) == MembersOf(inputs, c) &&
    InMatrix(MatchingEdges(inputs, m), m) && IsShape(MatchingEdges(inputs, m), m, c, ShapeOf(f))
  }

  /** The true component list, in any family and member order, is accepted, size limits included. */
  lemma TrueReportAccepted(inputs: seq<Member>, m: Matrix, families: seq<Family>, groups: seq<set<int>>)
    requires Square(m, |inputs|) && DistinctIds(inputs)
    requires forall i, j :: 0 <= i < |m| && 0 <= j < |m[i]| ==> -1.0 <= m[i][j] <= 1.0
    requires |groups| == |families| && AreComponents(MatchingEdges(inputs, m), groups)
    requires forall k :: 0 <= k < |families| ==> ExactlyDescribes(inputs, m, families[k], groups[k])
    ensures ReportMatches(inputs, m, families) && FamilyBounds(|inputs|, families)
  {
    forall k | 0 <= k < |families|
      ensures Plausible(families[k]) && DescribesComponent(inputs, m, families[k], groups[k])
    {
      assert Near(ShapeOf(families[k]), ShapeOf(families[k]));
    }
    assert MatchesGroups(inputs, m, families, groups);
    MatchWithinBounds(inputs, m, families);
  }

  // ----- global_oracle -----

  datatype CacheRecord = CacheRecord(vector: seq<real>, vectorHash: Hash, spans: string)

  /** The validated rows of the vector cache. */
  type Cache = map<Hash, CacheRecord>

  /** The cosine of two vectors before clipping, as the dense product computes it. */
  type Cosine = (seq<real>, seq<real>) -> real

  function Clip(x: real): (r: real)
    ensures -1.0 <= r <= 1.0 && (-1.0 <= x <= 1.0 ==> r == x) && (x > 1.0 ==> r == 1.0) && (x < -1.0 ==> r == -1.0)
  {
    if x < -1.0 then -1.0 else if x > 1.0 then 1.0 else x
  }

  ghost predicate Cached(inputs: seq<Member>, cache: Cache) {
    forall k :: 0 <= k < |inputs| ==> inputs[k].inputHash in cache
  }

  /** The cosine of the vectors of two inputs. */
  ghost function CosineAt(inputs: seq<Member>, cache: Cache, cosine: Cosine, i: int, j: int): real
    requires Cached(inputs, cache) && 0 <= i < |inputs| && 0 <= j < |inputs|
  {
    cosine(cache[inputs[i].inputHash].vector, cache[inputs[j].inputHash].vector)
  }

  /** One row of `np.clip(matrix @ matrix.T, -1, 1)`. */
  function DenseRow(inputs: seq<Member>, cache: Cache, cosine: Cosine, i: nat): (row: seq<real>)
    requires Cached(inputs, cache) && i < |inputs|
    ensures |row| == |inputs|
    ensures forall j :: 0 <= j < |row| ==> row[j] == Clip(CosineAt(inputs, cache, cosine, i, j))
  {
    var v := cache[inputs[i].inputHash].vector;
    seq(|inputs|, j requires 0 <= j < |inputs| => Clip(cosine(v, cache[inputs[j].inputHash].vector)))
  }

  function Dense(inputs: seq<Member>, cache: Cache, cosine: Cosine): (m: Matrix)
    requires Cached(inputs, cache)
    ensures Square(m, |inputs|)
    ensures forall i, j :: 0 <= i < |inputs| && 0 <= j < |inputs| ==>
      m[i][j] == Clip(CosineAt(inputs, cache, cosine, i, j))
    ensures forall i, j :: 0 <= i < |m| && 0 <= j < |m[i]| ==> -1.0 <= m[i][j] <= 1.0
  {
    seq(|inputs|, i requires 0 <= i < |inputs| => DenseRow(inputs, cache, cosine, i))
  }

  /** The pairs of functions in different files whose vectors have cosine at least 0.9. */
  ghost function SimilarPairs(inputs: seq<Member>, cache: Cache, cosine: Cosine): set<Edge>
    requires Cached(inputs, cache)
  {
    set i, j | 0 <= i < |inputs| && 0 <= j < |inputs| && i < j &&
      inputs[i].file != inputs[j].file && CosineAt(inputs, cache, cosine, i, j) >= 0.9 :: (i, j)
  }

  /** The score is within the tolerance of the cosine, or of the nearer end of [-1, 1] when that lies outside. */
  ghost predicate RequestedClose(inputs: seq<Member>, cache: Cache, cosine: Cosine, row: PairRow) {
    Cached(inputs, cache) && 0 <= row.left < |inputs| && 0 <= row.right < |inputs| &&
    var c := CosineAt(inputs, cache, cosine, row.left, row.right);
    (-1.0 <= c <= 1.0 ==> -0.000001 <= row.score - c <= 0.000001) &&
    (c > 1.0 ==> -0.000001 <= row.score - 1.0 <= 0.000001) && (c < -1.0 ==> -0.000001 <= row.score + 1.0 <= 0.000001)
  }

  /** Clipping to [-1, 1] moves no score across the threshold. */
  lemma DenseEdges(inputs: seq<Member>, cache: Cache, cosine: Cosine)
    requires Cached(inputs, cache)
    ensures MatchingEdges(inputs, Dense(inputs, cache, cosine)) == SimilarPairs(inputs, cache, cosine)
  {
  }

  lemma DenseRequested(rows: seq<PairRow>, inputs: seq<Member>, cache: Cache, cosine: Cosine)
    requires Cached(inputs, cache)
    ensures ScoresAgree(rows, Dense(inputs, cache, cosine)) <==>
              forall k :: 0 <= k < |rows| ==> RequestedClose(inputs, cache, cosine, rows[k])
  {
    var m := Dense(inputs, cache, cosine);
    forall k | 0 <= k < |rows|
      ensures RequestedClose(inputs, cache, cosine, rows[k]) <==>
                0 <= rows[k].left < |m| && 0 <= rows[k].right < |m[rows[k].left]| &&
                -0.000001 <= rows[k].score - m[rows[k].left][rows[k].right] <= 0.000001
    {
    }
  }

  /** The manifest rows of the active inputs are those of the cache. */
  ghost predicate CacheAgrees(v: Vectors, cache: Cache) {
    forall h, k :: Describes(v, h, k) ==>
      h in cache && v.rows[k].vectorHash == cache[h].vectorHash && v.rows[k].spans == cache[h].spans
  }

  ghost predicate ScoresAgree(rows: seq<PairRow>, m: Matrix) {
    forall k :: 0 <= k < |rows| ==>
      0 <= rows[k].left < |m| && 0 <= rows[k].right < |m[rows[k].left]| &&
      -0.000001 <= rows[k].score - m[rows[k].left][rows[k].right] <= 0.000001
  }

  /** What a passed oracle check establishes about an observation. */
  ghost predicate Passes(o: Observation, f: Foreign, cache: Cache, cosine: Cosine) {
    var inputs := o.globalResult.inputs;
    ValidApartFromFamilies(o, f, false) && Cached(inputs, cache) && CacheAgrees(VectorsOf(o), cache) &&
    ScoresAgree(o.pairScores, Dense(inputs, cache, cosine)) &&
    ReportMatches(inputs, Dense(inputs, cache, cosine), o.globalResult.families)
  }

  ghost predicate CrossFile(inputs: seq<Member>, i: int, j: int) {
    0 <= i < j < |inputs| && inputs[i].file != inputs[j].file
  }

  /** The least distance of a cross-file score from the threshold, if there is any such score. */
  ghost predicate IsMargin(inputs: seq<Member>, m: Matrix, margin: Option<real>)
    requires Square(m, |inputs|)
  {
    (margin.None? ==> forall i, j :: !CrossFile(inputs, i, j)) &&
    (margin.Some? ==>
      (forall i, j :: CrossFile(inputs, i, j) ==> margin.value <= Abs(m[i][j] - 0.9)) &&
      exists i, j :: CrossFile(inputs, i, j) && margin.value == Abs(m[i][j] - 0.9))
  }

  datatype OracleResult = OracleResult(functions: nat, families: nat, matchingEdges: nat,
                                       minimumThresholdMargin: Option<real>)

  method CheckCache(v: Vectors, cache: Cache) returns (ok: bool)
    requires Covered(v) && forall h :: h in v.hashes ==> h in cache
    ensures ok <==> CacheAgrees(v, cache)
  {
    var manifest := VectorTable(v.rows);
    for i := 0 to |v.hashes|
      invariant forall l :: 0 <= l < i ==>
        v.hashes[l] in manifest &&
        v.rows[manifest[v.hashes[l]]].vectorHash == cache[v.hashes[l]].vectorHash &&
        v.rows[manifest[v.hashes[l]]].spans == cache[v.hashes[l]].spans
    {
      var h := v.hashes[i];
      assert h in Elements(v.hashes);
      assert h in manifest;
      var row := v.rows[manifest[h]];
      if row.vectorHash != cache[h].vectorHash || row.spans != cache[h].spans {
        assert Describes(v, h, manifest[h]);
        return false;
      }
    }
    forall h, k | Describes(v, h, k)
      ensures h in cache && v.rows[k].vectorHash == cache[h].vectorHash && v.rows[k].spans == cache[h].spans
    {
      var l :| 0 <= l < |v.hashes| && v.hashes[l] == h;
      UniqueRow(v.rows, k, manifest[h]);
    }
    return true;
  }

  method CheckRequested(rows: seq<PairRow>, m: Matrix) returns (ok: bool)
    requires forall k :: 0 <= k < |rows| ==> 0 <= rows[k].left < |m| && 0 <= rows[k].right < |m[rows[k].left]|
    ensures ok <==> ScoresAgree(rows, m)
  {
    for k := 0 to |rows|
      invariant forall l :: 0 <= l < k ==> Abs(rows[l].score - m[rows[l].left][rows[l].right]) <= TOLERANCE
    {
      if Abs(rows[k].score - m[rows[k].left][rows[k].right]) > TOLERANCE {
        return false;
      }
    }
    return true;
  }

  method Margin(inputs: seq<Member>, m: Matrix) returns (margin: Option<real>)
    requires Square(m, |inputs|)
    ensures IsMargin(inputs, m, margin)
  {
    var pairs := Combinations(|inputs|);
    UniverseFacts(|inputs|);
    margin := None;
    ghost var at := (0, 0);
    for k := 0 to |pairs|
      invariant margin.None? ==> forall l :: 0 <= l < k ==> !CrossFile(inputs, pairs[l].0, pairs[l].1)
      invariant margin.Some? ==>
        CrossFile(inputs, at.0, at.1) && margin.value == Abs(m[at.0][at.1] - THRESHOLD) &&
        forall l :: 0 <= l < k && CrossFile(inputs, pairs[l].0, pairs[l].1) ==>
          margin.value <= Abs(m[pairs[l].0][pairs[l].1] - THRESHOLD)
    {
      var (i, j) := pairs[k];
      if inputs[i].file != inputs[j].file {
        var distance := Abs(m[i][j] - THRESHOLD);
        if margin.None? || distance < margin.value {
          margin, at := Some(distance), (i, j);
        }
      }
    }
    forall i, j | CrossFile(inputs, i, j)
      ensures margin.Some? && margin.value <= Abs(m[i][j] - THRESHOLD)
    {
      assert (i, j) in pairs;
      var l :| 0 <= l < |pairs| && pairs[l] == (i, j);
    }
  }

  method GlobalOracle(o: Observation, f: Foreign, cache: Cache, cosine: Cosine) returns (r: Option<OracleResult>)
    ensures r.Some? <==> Passes(o, f, cache, cosine)
    ensures r.Some? ==>
      var inputs := o.globalResult.inputs;
      var m := Dense(inputs, cache, cosine);
      r.value.functions == |inputs| && r.value.families == |o.globalResult.families| &&
      r.value.matchingEdges == |MatchingEdges(inputs, m)| && IsMargin(inputs, m, r.value.minimumThresholdMargin)
    ensures r.Some? ==>
      var inputs := o.globalResult.inputs;
      r.value.matchingEdges == |SimilarPairs(inputs, cache, cosine)| &&
      forall k :: 0 <= k < |o.pairScores| ==> RequestedClose(inputs, cache, cosine, o.pairScores[k])
  {
    hide ValidConfiguration, ReportMatches, IsMargin, CacheAgrees, ScoresAgree;
    var inputs, families := o.globalResult.inputs, o.globalResult.families;
    var valid := ValidateObservation(o, f, false);
    if !valid {
      if Passes(o, f, cache, cosine) {
        OracleNeedsValid(o, f, cache, cosine);
        assert false;
      }
      return None;
    }
    if exists k :: 0 <= k < |inputs| && inputs[k].inputHash !in cache {
      return None;
    }
    OracleShape(o, f);
    assert forall h :: h in o.unitInputHashes ==> h in cache;
    var manifest := CheckCache(VectorsOf(o), cache);
    if !manifest { return None; }
    var m := Dense(inputs, cache, cosine);
    var scores := CheckRequested(o.pairScores, m);
    if !scores { return None; }
    var ok, familyCount, edgeCount := CheckReport(inputs, m, families);
    if !ok { return None; }
    var margin := Margin(inputs, m);
    DenseEdges(inputs, cache, cosine);
    DenseRequested(o.pairScores, inputs, cache, cosine);
    return Some(OracleResult(|inputs|, familyCount, edgeCount, margin));
  }

  lemma OracleNeedsValid(o: Observation, f: Foreign, cache: Cache, cosine: Cosine)
    requires Passes(o, f, cache, cosine)
    ensures ValidObservation(o, f, false)
  {
    hide ValidConfiguration, ReportMatches, CacheAgrees, ScoresAgree;
    OracleShape(o, f);
    MatchWithinBounds(o.globalResult.inputs, Dense(o.globalResult.inputs, cache, cosine), o.globalResult.families);
  }

  /** The facts of a valid observation the oracle uses. */
  lemma OracleShape(o: Observation, f: Foreign)
    requires ValidApartFromFamilies(o, f, false)
    ensures DistinctIds(o.globalResult.inputs) && |o.globalResult.inputs| == |o.unitManifest| == |o.unitInputHashes|
    ensures forall k :: 0 <= k < |o.unitInputHashes| ==> o.globalResult.inputs[k].inputHash == o.unitInputHashes[k]
    ensures Covered(VectorsOf(o)) && Complete(ScoringOf(o)) && Indexed(ScoringOf(o))
  {
    hide ValidConfiguration;
    ValidComplete(o, f, false);
  }
}
