/**
 Which files belong to the analysed code base and to which module
 (scripts/comprehensive_graph_analysis.py, lines 70-76 and 112-121).
 */
module ModuleNames {
  import opened FiniteSets
  import opened Selections
  import opened SourcePaths

  // ----- Files of the code base -----

  ghost predicate OccursAt(text: string, part: string, i: int) {
    0 <= i <= |text| - |part| && text[i..i + |part|] == part
  }

  ghost predicate Occurs(text: string, part: string) {
    exists i :: OccursAt(text, part, i)
  }

  /** `part in text`. */
  function Contains(text: string, part: string): (r: bool)
    ensures r <==> Occurs(text, part)
  {
    ContainsSteps(text, part);
    part <= text || (text != "" && Contains(text[1..], part))
  }

  lemma ContainsSteps(text: string, part: string)
    ensures Occurs(text, part) <==> part <= text || (text != "" && Occurs(text[1..], part))
  {
    if part <= text {
      assert OccursAt(text, part, 0);
    }
    if text != "" && Occurs(text[1..], part) {
      var i :| OccursAt(text[1..], part, i);
      assert text[1..][i..i + |part|] == text[i + 1..i + 1 + |part|];
      assert OccursAt(text, part, i + 1);
    }
    if Occurs(text, part) && !(part <= text) {
      var i :| OccursAt(text, part, i);
      assert i > 0;
      assert text[1..][i - 1..i - 1 + |part|] == text[i..i + |part|];
      assert OccursAt(text[1..], part, i - 1);
    }
  }

  /** `text.lower()`, as far as the searched parts can tell: only the letters A to Z have ASCII lower-case forms. */
  function Lower(text: string): (r: string)
    ensures |r| == |text|
    ensures forall i :: 0 <= i < |text| ==>
      (65 <= text[i] as int <= 90 ==> r[i] as int == text[i] as int + 32) &&
      (!(65 <= text[i] as int <= 90) ==> r[i] == text[i])
  {
    seq(|text|, (i: int) requires 0 <= i < |text| =>
          if 'A' <= text[i] <= 'Z' then text[i] - 'A' + 'a' else text[i])
  }

  /** A file below `victor/` that is not a test. */
  ghost predicate Included(file: string) {
    Occurs(file, "victor/") && !Occurs(Lower(file), "/test") && !Occurs(Lower(file), "test_")
  }

  function IsIncluded(file: string): (r: bool)
    ensures r <==> Included(file)
  {
    assert Occurs(file, "victor/") ==> file != "";
    if file != "" && Contains(file, "victor/") then
      !Contains(Lower(file), "/test") && !Contains(Lower(file), "test_")
    else false
  }

  // ----- Modules -----

  /** The components of a path that `Path.parts` keeps. */
  ghost function PlainAt(parts: seq<string>): set<int> {
    set k | 0 <= k < |parts| && parts[k] != "" && parts[k] != "."
  }

  function PathParts(parts: seq<string>): (plain: seq<string>)
    ensures Selects(parts, PlainAt(parts), plain)
  {
    if parts == [] then
      assert PlainAt(parts) == {};
      SelectNone(parts);
      []
    else
      var n := |parts| - 1;
      var front := PathParts(parts[..n]);
      SelectLonger(parts, n, PlainAt(parts[..n]), front);
      if parts[n] in {"", "."} then
        assert PlainAt(parts) == PlainAt(parts[..n]);
        front
      else
        assert PlainAt(parts) == PlainAt(parts[..n]) + {n};
        SelectMore(parts, PlainAt(parts[..n]), front, n);
        front + [parts[n]]
  }

  /** The first component named `victor`. */
  ghost predicate IsFirstVictor(parts: seq<string>, v: int) {
    0 <= v < |parts| && parts[v] == "victor" && forall u :: 0 <= u < v ==> parts[u] != "victor"
  }

  /** The name of the component after the first `victor`, if there are both. */
  ghost predicate IsModule(parts: seq<string>, name: string) {
    (forall v :: IsFirstVictor(parts, v) && v + 1 < |parts| ==> name == "victor." + parts[v + 1]) &&
    ((forall v :: IsFirstVictor(parts, v) ==> v + 1 >= |parts|) ==> name == "victor")
  }

  function AfterVictor(parts: seq<string>): (name: string)
    ensures IsModule(parts, name)
  {
    if parts == [] then "victor"
    else if parts[0] == "victor" then
      assert IsFirstVictor(parts, 0);
      (if |parts| > 1 then "victor." + parts[1] else "victor")
    else
      ModuleSteps(parts, AfterVictor(parts[1..]));
      AfterVictor(parts[1..])
  }

  lemma ModuleSteps(parts: seq<string>, name: string)
    requires parts != [] && parts[0] != "victor" && IsModule(parts[1..], name)
    ensures IsModule(parts, name)
  {
    var rest := parts[1..];
    forall v ensures IsFirstVictor(parts, v) <==> IsFirstVictor(rest, v - 1) {
      if IsFirstVictor(rest, v - 1) {
        forall u | 0 <= u < v ensures parts[u] != "victor" {
          assert u > 0 ==> parts[u] == rest[u - 1];
        }
      }
      if IsFirstVictor(parts, v) {
        forall u | 0 <= u < v - 1 ensures rest[u] != "victor" {
          assert rest[u] == parts[u + 1];
        }
      }
    }
    forall v | IsFirstVictor(parts, v) && v + 1 < |parts| ensures name == "victor." + parts[v + 1] {
      assert IsFirstVictor(rest, v - 1);
    }
    if forall v :: IsFirstVictor(parts, v) ==> v + 1 >= |parts| {
      forall v | IsFirstVictor(rest, v) ensures v + 1 >= |rest| {
        assert IsFirstVictor(parts, v + 1);
      }
    }
  }

  /** `get_submodule`. */
  function Submodule(file: string): string {
    if file == "" then "unknown" else AfterVictor(PathParts(Split(file)))
  }

  /** The module of any path, given its plain components. */
  lemma SubmoduleExactly(file: string, plain: seq<string>)
    requires Selects(Split(file), PlainAt(Split(file)), plain)
    ensures file == "" ==> Submodule(file) == "unknown"
    ensures file != "" ==> IsModule(plain, Submodule(file))
  {
    SelectionUnique(Split(file), PlainAt(Split(file)), plain, PathParts(Split(file)));
  }

  ghost predicate PlainParts(parts: seq<string>) {
    parts != [] && forall k :: 0 <= k < |parts| ==> parts[k] != "" && parts[k] != "." && '/' !in parts[k]
  }

  /** In particular of a path written as the join of plain components. */
  lemma SubmoduleOfJoin(parts: seq<string>)
    requires PlainParts(parts)
    ensures IsModule(parts, Submodule(Join(parts)))
  {
    SplitJoin(parts);
    SelectAll(parts, PlainAt(parts));
    assert Join(parts) != "" by {
      assert Split("") == [""];
    }
    SubmoduleExactly(Join(parts), parts);
  }

  /** A path below `victor/<x>/`, with no earlier `victor` on the way, belongs to the module `victor.<x>`. */
  lemma BelowVictor(above: seq<string>, x: string, below: seq<string>)
    requires PlainParts(above + ["victor", x] + below) && "victor" !in above
    ensures Submodule(Join(above + ["victor", x] + below)) == "victor." + x
  {
    var parts := above + ["victor", x] + below;
    assert IsFirstVictor(parts, |above|);
    assert parts[|above| + 1] == x;
    SubmoduleOfJoin(parts);
  }
}
