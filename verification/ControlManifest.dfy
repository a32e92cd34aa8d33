/**
 Validation of the callee-control manifest (`_fixture`, scripts/benchmark_callee_context.py, lines 73-162).
 An accepted manifest is a simple graph on its units without isolated vertices.
 */
module ControlManifest {
  import opened Wrappers
  import opened FiniteSets

  datatype Unit = Unit(id: string, file: string, symbol: string, line: int, endLine: int,
                       controlledTargets: seq<Option<string>>)

  datatype Pair = Pair(id: string, left: string, right: string, positive: Option<bool>, rationale: string)

  datatype Manifest = Manifest(schema: string, oracleDomain: string, sourceHashes: map<string, string>,
                               units: seq<Unit>, pairs: seq<Pair>)

  const MAX_FILE := 65536

  ghost predicate Text(value: string) {
    0 < |value| <= 4096
  }

  ghost predicate HashText(value: string) {
    |value| == 64 && forall k :: 0 <= k < 64 ==> '0' <= value[k] <= '9' || 'a' <= value[k] <= 'f'
  }

  /** `control_[a-z_]+\\.py` */
  ghost predicate SourceName(name: string) {
    |name| > 11 && name[..8] == "control_" && name[|name| - 3..] == ".py" &&
    forall k :: 8 <= k < |name| - 3 ==> 'a' <= name[k] <= 'z' || name[k] == '_'
  }

  ghost predicate ValidHeader(m: Manifest) {
    m.schema == "victor-callee-context-controls-v1" && Text(m.oracleDomain) && 1 <= |m.sourceHashes| <= 32 &&
    forall name :: name in m.sourceHashes ==> SourceName(name) && HashText(m.sourceHashes[name])
  }

  ghost predicate ValidUnit(m: Manifest, u: Unit) {
    Text(u.id) && Text(u.file) && Text(u.symbol) && u.file in m.sourceHashes &&
    1 <= u.line <= u.endLine <= 65536 && |u.controlledTargets| <= 1024 &&
    forall k :: 0 <= k < |u.controlledTargets| ==> u.controlledTargets[k].None? || Text(u.controlledTargets[k].value)
  }

  ghost function Location(u: Unit): (string, string, int, int) {
    (u.file, u.symbol, u.line, u.endLine)
  }

  ghost predicate ValidPairText(p: Pair) {
    Text(p.id) && Text(p.left) && Text(p.right) && Text(p.rationale)
  }

  ghost predicate JoinsUnits(p: Pair, units: set<string>) {
    ValidPairText(p) && p.left in units && p.right in units && p.left != p.right
  }

  /** `tuple(sorted((left, right)))` of different endpoints: the unordered pair. */
  ghost function Ends(p: Pair): set<string> {
    {p.left, p.right}
  }

  ghost function UnitIds(units: seq<Unit>): (ids: seq<string>)
    ensures |ids| == |units| && forall k :: 0 <= k < |units| ==> ids[k] == units[k].id
  {
    if units == [] then [] else UnitIds(units[..|units| - 1]) + [units[|units| - 1].id]
  }

  ghost function Locations(units: seq<Unit>): (places: seq<(string, string, int, int)>)
    ensures |places| == |units| && forall k :: 0 <= k < |units| ==> places[k] == Location(units[k])
  {
    if units == [] then [] else Locations(units[..|units| - 1]) + [Location(units[|units| - 1])]
  }

  ghost function PairIds(pairs: seq<Pair>): (ids: seq<string>)
    ensures |ids| == |pairs| && forall k :: 0 <= k < |pairs| ==> ids[k] == pairs[k].id
  {
    if pairs == [] then [] else PairIds(pairs[..|pairs| - 1]) + [pairs[|pairs| - 1].id]
  }

  ghost function PairEnds(pairs: seq<Pair>): (ends: seq<set<string>>)
    ensures |ends| == |pairs| && forall k :: 0 <= k < |pairs| ==> ends[k] == Ends(pairs[k])
  {
    if pairs == [] then [] else PairEnds(pairs[..|pairs| - 1]) + [Ends(pairs[|pairs| - 1])]
  }

  ghost function Referenced(pairs: seq<Pair>): set<string> {
    if pairs == [] then {} else Referenced(pairs[..|pairs| - 1]) + Ends(pairs[|pairs| - 1])
  }

  /** Every unit is valid; no id and no source location is used twice. */
  ghost predicate UnitsWellFormed(m: Manifest) {
    (forall k :: 0 <= k < |m.units| ==> ValidUnit(m, m.units[k])) &&
    Distinct(UnitIds(m.units)) && Distinct(Locations(m.units))
  }

  /** Pairs join two different known units; no pair id and no unordered pair repeats. */
  ghost predicate PairsWellFormed(m: Manifest) {
    (forall k :: 0 <= k < |m.pairs| ==> JoinsUnits(m.pairs[k], Elements(UnitIds(m.units)))) &&
    Distinct(PairIds(m.pairs)) && Distinct(PairEnds(m.pairs))
  }

  ghost predicate WellFormed(m: Manifest) {
    ValidHeader(m) && 1 <= |m.units| <= 64 && UnitsWellFormed(m) &&
    1 <= |m.pairs| <= 256 && PairsWellFormed(m) && Referenced(m.pairs) == Elements(UnitIds(m.units))
  }

  // ----- The validator -----

  lemma DistinctExtend<T>(s: seq<T>, k: nat)
    requires k < |s| && Distinct(s[..k])
    ensures Distinct(s[..k + 1]) <==> s[k] !in Elements(s[..k])
    ensures Elements(s[..k + 1]) == Elements(s[..k]) + {s[k]}
    ensures s[k] in Elements(s[..k]) ==> !Distinct(s)
  {
    assert s[..k + 1] == s[..k] + [s[k]];
    ElementsAppend(s[..k], s[k]);
    if s[k] in Elements(s[..k]) {
      var j :| 0 <= j < k && s[..k][j] == s[k];
      assert s[..k + 1][j] == s[..k + 1][k] && s[j] == s[k];
    }
  }

  lemma DistinctNone<T>(s: seq<T>)
    ensures Distinct(s[..0]) && Elements(s[..0]) == {}
  {
  }

  /** Line 73. */
  function IsText(value: string): (ok: bool)
    ensures ok <==> Text(value)
  {
    value != "" && |value| <= 4096
  }

  /** Line 77: `[0-9a-f]{64}`. */
  method MatchesHash(value: string) returns (ok: bool)
    ensures ok <==> HashText(value)
  {
    if |value| != 64 {
      return false;
    }
    for k := 0 to 64
      invariant forall l :: 0 <= l < k ==> '0' <= value[l] <= '9' || 'a' <= value[l] <= 'f'
    {
      var c := value[k];
      if c < '0' || (c > '9' && c < 'a') || c > 'f' {
        return false;
      }
    }
    return true;
  }

  /** Line 96. */
  method MatchesName(name: string) returns (ok: bool)
    ensures ok <==> SourceName(name)
  {
    if |name| < 12 || !("control_" <= name) || name[|name| - 3..] != ".py" {
      return false;
    }
    for k := 8 to |name| - 3
      invariant forall l :: 8 <= l < k ==> 'a' <= name[l] <= 'z' || name[l] == '_'
    {
      if name[k] != '_' && (name[k] < 'a' || name[k] > 'z') {
        return false;
      }
    }
    return true;
  }

  /** Lines 82-100. */
  method CheckHeader(m: Manifest) returns (ok: bool)
    ensures ok <==> ValidHeader(m)
  {
    hide SourceName, HashText, Text;
    if m.schema != "victor-callee-context-controls-v1" {
      return false;
    }
    if !IsText(m.oracleDomain) {
      return false;
    }
    if !(1 <= |m.sourceHashes| <= 32) {
      return false;
    }
    var names := Listing(m.sourceHashes.Keys);
    for k := 0 to |names|
      invariant forall l :: 0 <= l < k ==>
        names[l] in m.sourceHashes && SourceName(names[l]) && HashText(m.sourceHashes[names[l]])
    {
      assert names[k] in Elements(names);
      var safe := MatchesName(names[k]);
      if !safe {
        return false;
      }
      var hash := MatchesHash(m.sourceHashes[names[k]]);
      if !hash {
        return false;
      }
    }
    assert forall name :: name in m.sourceHashes ==> name in Elements(names);
    return true;
  }

  /** Lines 112-126. */
  method CheckUnit(m: Manifest, unit: Unit) returns (ok: bool)
    ensures ok <==> ValidUnit(m, unit)
  {
    hide Text;
    if !IsText(unit.id) || !IsText(unit.file) || !IsText(unit.symbol) || unit.file !in m.sourceHashes {
      return false;
    }
    if !(1 <= unit.line <= unit.endLine <= MAX_FILE) || |unit.controlledTargets| > 1024 {
      return false;
    }
    for k := 0 to |unit.controlledTargets|
      invariant forall l :: 0 <= l < k ==> unit.controlledTargets[l].None? || Text(unit.controlledTargets[l].value)
    {
      var target := unit.controlledTargets[k];
      if target.Some? && !IsText(target.value) {
        return false;
      }
    }
    return true;
  }

  method CheckUnits(m: Manifest) returns (ok: bool, units: set<string>)
    ensures ok <==> UnitsWellFormed(m)
    ensures ok ==> units == Elements(UnitIds(m.units))
  {
    units := {};
    var locations: set<(string, string, int, int)> := {};
    ghost var ids, places := UnitIds(m.units), Locations(m.units);
    for k := 0 to |m.units|
      invariant forall l :: 0 <= l < k ==> ValidUnit(m, m.units[l])
      invariant Distinct(ids[..k]) && units == Elements(ids[..k])
      invariant Distinct(places[..k]) && locations == Elements(places[..k])
    {
      var unit := m.units[k];
      DistinctExtend(ids, k);
      DistinctExtend(places, k);
      var valid := CheckUnit(m, unit);
      if !valid || unit.id in units {
        return false, units;
      }
      var location := (unit.file, unit.symbol, unit.line, unit.endLine);
      assert location == places[k];
      if location in locations {
        return false, units;
      }
      locations := locations + {location};
      units := units + {unit.id};
    }
    assert ids[..|m.units|] == ids && places[..|m.units|] == places;
    return true, units;
  }

  /** Lines 142-151. */
  method CheckPair(pair: Pair, units: set<string>) returns (ok: bool)
    ensures ok <==> JoinsUnits(pair, units)
  {
    hide Text;
    if !IsText(pair.id) || !IsText(pair.left) || !IsText(pair.right) || !IsText(pair.rationale) {
      return false;
    }
    return pair.left in units && pair.right in units && pair.left != pair.right;
  }

  lemma EndsOf(pair: Pair)
    ensures Ends(pair) == {pair.left, pair.right}
  {
  }

  method CheckPairs(m: Manifest, units: set<string>) returns (ok: bool, referenced: set<string>)
    requires units == Elements(UnitIds(m.units))
    ensures ok <==> PairsWellFormed(m)
    ensures ok ==> referenced == Referenced(m.pairs)
  {
    referenced := {};
    var ids: set<string> := {};
    var endpoints: set<set<string>> := {};
    ghost var names, ends := PairIds(m.pairs), PairEnds(m.pairs);
    DistinctNone(names);
    DistinctNone(ends);
    hide JoinsUnits, Elements, Distinct, Ends;
    for k := 0 to |m.pairs|
      invariant forall l :: 0 <= l < k ==> JoinsUnits(m.pairs[l], units)
      invariant Distinct(names[..k]) && ids == Elements(names[..k])
      invariant Distinct(ends[..k]) && endpoints == Elements(ends[..k])
      invariant referenced == Referenced(m.pairs[..k])
    {
      var pair := m.pairs[k];
      DistinctExtend(names, k);
      DistinctExtend(ends, k);
      var joins := CheckPair(pair, units);
      if pair.id in ids || !joins {
        return false, referenced;
      }
      var key := {pair.left, pair.right};
      EndsOf(pair);
      if key in endpoints {
        return false, referenced;
      }
      ids := ids + {pair.id};
      endpoints := endpoints + {key};
      referenced := referenced + key;
      assert m.pairs[..k + 1][..k] == m.pairs[..k];
    }
    assert names[..|m.pairs|] == names && ends[..|m.pairs|] == ends && m.pairs[..|m.pairs|] == m.pairs;
    return true, referenced;
  }

  method Validate(m: Manifest) returns (ok: bool)
    ensures ok <==> WellFormed(m)
  {
    hide ValidHeader, UnitsWellFormed, PairsWellFormed;
    var header := CheckHeader(m);
    if !header || !(1 <= |m.units| <= 64) {
      return false;
    }
    var unitsOk, units := CheckUnits(m);
    if !unitsOk || !(1 <= |m.pairs| <= 256) {
      return false;
    }
    var pairsOk, referenced := CheckPairs(m, units);
    return pairsOk && referenced == units;
  }

  // ----- What acceptance implies -----

  lemma {:induction false} ReferencedSize(pairs: seq<Pair>)
    ensures |Referenced(pairs)| <= 2 * |pairs|
  {
    if pairs != [] {
      var front, last := Referenced(pairs[..|pairs| - 1]), Ends(pairs[|pairs| - 1]);
      ReferencedSize(pairs[..|pairs| - 1]);
      assert front + last == front + (last - front);
      SubsetSize(last - front, last);
      EndsSize(pairs[|pairs| - 1]);
    }
  }

  lemma EndsSize(p: Pair)
    ensures |Ends(p)| <= 2
  {
    if p.left != p.right {
      assert Ends(p) == {p.left} + {p.right};
    } else {
      assert Ends(p) == {p.left};
    }
  }

  /** With u units there are at most u(u-1)/2 pairs, and at least u/2 since every unit is used. */
  lemma AcceptedBounds(m: Manifest)
    requires WellFormed(m)
    ensures |m.pairs| <= |m.units| * (|m.units| - 1) / 2
    ensures |m.units| <= 2 * |m.pairs|
  {
    hide ValidHeader;
    var ids, ends := UnitIds(m.units), PairEnds(m.pairs);
    DistinctSize(ids);
    DistinctSize(ends);
    forall e | e in Elements(ends) ensures e in TwoSubsets(Elements(ids)) {
      var k :| 0 <= k < |ends| && ends[k] == e;
      assert e == {m.pairs[k].left, m.pairs[k].right};
      assert m.pairs[k].left in Elements(ids) && m.pairs[k].right in Elements(ids);
    }
    SubsetSize(Elements(ends), TwoSubsets(Elements(ids)));
    TwoSubsetsSize(Elements(ids));
    PairCountClosed(|m.units|);
    ReferencedSize(m.pairs);
  }

  /** Every unit is an endpoint of some pair. */
  lemma {:induction false} ReferencedBy(pairs: seq<Pair>, id: string) returns (k: nat)
    requires id in Referenced(pairs)
    ensures k < |pairs| && (pairs[k].left == id || pairs[k].right == id)
  {
    if id in Ends(pairs[|pairs| - 1]) {
      k := |pairs| - 1;
    } else {
      k := ReferencedBy(pairs[..|pairs| - 1], id);
    }
  }

  lemma NoIsolatedUnit(m: Manifest, u: nat) returns (k: nat)
    requires WellFormed(m) && u < |m.units|
    ensures k < |m.pairs| && (m.pairs[k].left == m.units[u].id || m.pairs[k].right == m.units[u].id)
  {
    hide ValidHeader, PairsWellFormed;
    assert UnitIds(m.units)[u] in Elements(UnitIds(m.units));
    k := ReferencedBy(m.pairs, m.units[u].id);
  }
}
