/**
 The other aggregates of the same graph: dependency data for diagrams and overall metrics
 (scripts/comprehensive_graph_analysis.py, lines 467-538), and their agreement with the coupling analysis.
 */
module GraphAggregates {
  import opened Wrappers
  import opened FiniteSets
  import opened Counting
  import opened Sorting
  import opened ModuleNames
  import opened ModuleCoupling

  datatype Dependency = Dependency(source: string, target: string, total: nat, byType: map<string, nat>)

  datatype ModuleSize = ModuleSize(name: string, size: nat)

  const SIGNIFICANT: nat := 5

  predicate HeavierDependency(a: Dependency, b: Dependency) {
    a.total >= b.total
  }

  predicate Larger(a: ModuleSize, b: ModuleSize) {
    a.size >= b.size
  }

  ghost function DependencyOf(nodes: map<Id, Node>, edges: map<Edge, Link>, cross: set<Edge>)
    : ((string, string)) -> Dependency
  {
    (p: (string, string)) =>
      Dependency(p.0, p.1, |Fiber(cross, Ends(nodes), p)|, TallyOf(Fiber(cross, Ends(nodes), p), KindOf(edges)))
  }

  ghost predicate DependencyList(nodes: map<Id, Node>, edges: map<Edge, Link>, cross: set<Edge>,
                                 list: seq<Dependency>)
  {
    Entries(list, PairsFrom(nodes, cross, 5), DependencyOf(nodes, edges, cross)) &&
    forall i, j :: 0 <= i < j < |list| ==> list[i].total >= list[j].total
  }

  ghost function SizeOf(nodes: map<Id, Node>): string -> ModuleSize {
    (m: string) => ModuleSize(m, |Fiber(nodes.Keys, ModuleOf(nodes), m)|)
  }

  ghost predicate SizeList(nodes: map<Id, Node>, list: seq<ModuleSize>) {
    Entries(list, Image(nodes.Keys, ModuleOf(nodes)), SizeOf(nodes)) &&
    forall i, j :: 0 <= i < j < |list| ==> list[i].size >= list[j].size
  }

  // ----- Dependency data -----

  lemma CountTyped(nodes: map<Id, Node>, edges: map<Edge, Link>, seen: set<Edge>, e: Edge)
    requires e !in seen
    ensures NestedTallyOf(Cross(nodes, seen + {e}), Ends(nodes), KindOf(edges)) ==
            if !IsCross(nodes, e) then NestedTallyOf(Cross(nodes, seen), Ends(nodes), KindOf(edges))
            else BumpIn(NestedTallyOf(Cross(nodes, seen), Ends(nodes), KindOf(edges)), Ends(nodes)(e), KindOf(edges)(e))
  {
    hide Ends, KindOf, Submodule, NestedTallyOf, BumpIn;
    CrossAdd(nodes, seen, e);
    BumpInTallies(Cross(nodes, seen), Ends(nodes), KindOf(edges), e);
  }

  lemma NoTyped(nodes: map<Id, Node>, edges: map<Edge, Link>)
    ensures NestedTallyOf(Cross(nodes, Elements([])), Ends(nodes), KindOf(edges)) == map[]
  {
    assert Cross(nodes, Elements([])) == {};
  }

  method CountByType(nodes: map<Id, Node>, edges: map<Edge, Link>)
    returns (counts: map<(string, string), map<string, nat>>)
    ensures counts == NestedTallyOf(Cross(nodes, edges.Keys), Ends(nodes), KindOf(edges))
  {
    hide Source, Target, Submodule, NestedTallyOf, BumpIn, IsCross;
    counts := map[];
    var list := Listing(edges.Keys);
    NoTyped(nodes, edges);
    for i := 0 to |list|
      invariant counts == NestedTallyOf(Cross(nodes, Elements(list[..i])), Ends(nodes), KindOf(edges))
    {
      var e := list[i];
      assert e in Elements(list);
      TakeOneMore(list, i);
      CountTyped(nodes, edges, Elements(list[..i]), e);
      IsCrossMeans(nodes, e);
      if e.src in nodes && e.dst in nodes {
        var a, b := Submodule(nodes[e.src].file), Submodule(nodes[e.dst].file);
        if a != b {
          counts := BumpIn(counts, (a, b), edges[e].kind);
        }
      }
    }
    assert list[..|list|] == list;
  }

  /** `sum(counter.values())` is the number of elements counted. */
  method SumValues<E, K(==)>(counter: map<K, nat>, ghost s: set<E>, ghost f: E -> K) returns (n: nat)
    requires counter == TallyOf(s, f)
    ensures n == |s|
  {
    var keys := Listing(counter.Keys);
    var counts := seq(|keys|, (i: int) requires 0 <= i < |keys| => if keys[i] in counter then counter[keys[i]] else 0);
    forall i | 0 <= i < |keys| ensures counts[i] == |Fiber(s, f, keys[i])| {
      assert keys[i] in Elements(keys);
    }
    PartitionAll(s, f, keys, counts);
    n := Sum(counts);
  }

  method Dependencies(nodes: map<Id, Node>, edges: map<Edge, Link>) returns (list: seq<Dependency>)
    ensures DependencyList(nodes, edges, Cross(nodes, edges.Keys), list)
  {
    hide Ends, KindOf, Ordered, Cross, TallyOf;
    var counts := CountByType(nodes, edges);
    ghost var cross := Cross(nodes, edges.Keys);
    ghost var make := DependencyOf(nodes, edges, cross);
    ghost var key := (d: Dependency) => (d.source, d.target);
    var pairs := Listing(counts.Keys);
    list := [];
    for i := 0 to |pairs|
      invariant Entries(list, Frequent(cross, Ends(nodes), Elements(pairs[..i]), SIGNIFICANT), make)
    {
      var p := pairs[i];
      assert p in Elements(pairs);
      TakeOneMore(pairs, i);
      ghost var before := Frequent(cross, Ends(nodes), Elements(pairs[..i]), SIGNIFICANT);
      ghost var after := Frequent(cross, Ends(nodes), Elements(pairs[..i + 1]), SIGNIFICANT);
      var total := SumValues(counts[p], Fiber(cross, Ends(nodes), p), KindOf(edges));
      if total >= SIGNIFICANT {
        assert after == before + {p};
        EntriesAdd(list, before, make, p, key);
        list := list + [Dependency(p.0, p.1, total, counts[p])];
      } else {
        assert after == before;
      }
    }
    assert pairs[..|pairs|] == pairs;
    assert Frequent(cross, Ends(nodes), Elements(pairs), SIGNIFICANT) == PairsFrom(nodes, cross, SIGNIFICANT);
    HeavierDependencyOrders();
    SortedEntries(list, PairsFrom(nodes, cross, SIGNIFICANT), make, HeavierDependency);
    list := Sorted(list, HeavierDependency);
    DependenciesDescend(list);
  }

  ghost function Frequent<E, K>(s: set<E>, f: E -> K, ks: set<K>, least: nat): set<K> {
    set k | k in ks && |Fiber(s, f, k)| >= least
  }

  lemma HeavierDependencyOrders()
    ensures TotalPreorder(HeavierDependency)
  {
  }

  lemma DependenciesDescend(list: seq<Dependency>)
    requires Ordered(list, HeavierDependency)
    ensures forall i, j :: 0 <= i < j < |list| ==> list[i].total >= list[j].total
  {
    assert forall i, j :: 0 <= i < j < |list| ==> HeavierDependency(list[i], list[j]);
  }

  lemma SizesDescend(list: seq<ModuleSize>)
    requires Ordered(list, Larger)
    ensures forall i, j :: 0 <= i < j < |list| ==> list[i].size >= list[j].size
  {
    assert forall i, j :: 0 <= i < j < |list| ==> Larger(list[i], list[j]);
  }

  lemma LargerOrders()
    ensures TotalPreorder(Larger)
  {
  }

  method GroupNodes(nodes: map<Id, Node>) returns (groups: map<string, set<Id>>)
    ensures groups == map m | m in Image(nodes.Keys, ModuleOf(nodes)) :: Fiber(nodes.Keys, ModuleOf(nodes), m)
  {
    hide Submodule;
    groups := map[];
    var ids := Listing(nodes.Keys);
    for i := 0 to |ids|
      invariant groups == GroupsOf(Elements(ids[..i]), ModuleOf(nodes))
    {
      assert ids[i] in Elements(ids);
      TakeOneMore(ids, i);
      GroupsAdd(Elements(ids[..i]), ModuleOf(nodes), ids[i]);
      var m := Submodule(nodes[ids[i]].file);
      groups := groups[m := (if m in groups then groups[m] else {}) + {ids[i]}];
    }
    assert ids[..|ids|] == ids;
  }

  ghost function GroupsOf<E, K>(s: set<E>, f: E -> K): map<K, set<E>> {
    map k | k in Image(s, f) :: Fiber(s, f, k)
  }

  lemma GroupsAdd<E, K>(s: set<E>, f: E -> K, e: E)
    ensures GroupsOf(s + {e}, f) ==
            GroupsOf(s, f)[f(e) := (if f(e) in GroupsOf(s, f) then GroupsOf(s, f)[f(e)] else {}) + {e}]
  {
    ImageAdd(s, f, e);
    FiberEmpty(s, f, f(e));
    forall k | k in Image(s + {e}, f)
      ensures Fiber(s + {e}, f, k) == if f(e) == k then Fiber(s, f, k) + {e} else Fiber(s, f, k)
    {
      FiberAdd(s, f, e, k);
    }
  }

  method ModuleSizes(nodes: map<Id, Node>) returns (list: seq<ModuleSize>)
    ensures SizeList(nodes, list)
  {
    hide ModuleOf, Ordered;
    var groups := GroupNodes(nodes);
    list := [];
    var names := Listing(groups.Keys);
    ghost var name := (s: ModuleSize) => s.name;
    for i := 0 to |names|
      invariant Entries(list, Elements(names[..i]), SizeOf(nodes))
    {
      assert names[i] in Elements(names);
      TakeOneMore(names, i);
      EntriesAdd(list, Elements(names[..i]), SizeOf(nodes), names[i], name);
      list := list + [ModuleSize(names[i], |groups[names[i]]|)];
    }
    assert names[..|names|] == names;
    LargerOrders();
    SortedEntries(list, Image(nodes.Keys, ModuleOf(nodes)), SizeOf(nodes), Larger);
    list := Sorted(list, Larger);
    SizesDescend(list);
  }

  method DependencyData(nodes: map<Id, Node>, edges: map<Edge, Link>)
    returns (modules: seq<ModuleSize>, dependencies: seq<Dependency>)
    ensures SizeList(nodes, modules) && Sum(Sizes(modules)) == |nodes|
    ensures DependencyList(nodes, edges, Cross(nodes, edges.Keys), dependencies)
  {
    hide SizeList, DependencyList;
    modules := ModuleSizes(nodes);
    SizesSum(nodes, modules);
    dependencies := Dependencies(nodes, edges);
  }

  // ----- Metrics -----

  datatype Metrics = Metrics(nodes: nat, edges: nat, averageIn: real, averageOut: real,
                             kinds: map<string, nat>, edgeKinds: map<string, nat>, modules: seq<ModuleSize>)

  function NodeKind(nodes: map<Id, Node>): Id -> string {
    (id: Id) => if id in nodes then nodes[id].kind else "unknown"
  }

  /** `for x in items: counter[key(x)] += 1`. */
  method CountBy<E(==), K(==)>(items: set<E>, key: E -> K) returns (counter: map<K, nat>)
    ensures counter == TallyOf(items, key)
  {
    counter := map[];
    var list := Listing(items);
    for i := 0 to |list|
      invariant counter == TallyOf(Elements(list[..i]), key)
    {
      TakeOneMore(list, i);
      BumpTallies(Elements(list[..i]), key, list[i]);
      counter := Bump(counter, key(list[i]));
    }
    assert list[..|list|] == list;
  }

  /** The sum of the in- or out-degrees, by whichever end `end` names: one for every edge. */
  method DegreeSum(g: Graph, end: Edge -> Id) returns (n: nat)
    requires forall e :: e in g.edges ==> end(e) in g.nodes
    ensures n == |g.edges|
  {
    var ids := Listing(g.nodes.Keys);
    var degrees := seq(|ids|, (i: int) requires 0 <= i < |ids| => |set e | e in g.edges.Keys && end(e) == ids[i]|);
    ghost var edges := g.edges.Keys;
    forall i | 0 <= i < |ids| ensures degrees[i] == |Fiber(edges, end, ids[i])| {
      assert (set e | e in g.edges.Keys && end(e) == ids[i]) == Fiber(edges, end, ids[i]);
    }
    PartitionAll(edges, end, ids, degrees);
    n := Sum(degrees);
  }

  lemma KindsCounted(g: Graph)
    ensures var kinds := TallyOf(g.nodes.Keys, NodeKind(g.nodes));
      (forall t :: t in kinds ==> kinds[t] == |set id | id in g.nodes.Keys && g.nodes[id].kind == t|) &&
      forall id :: id in g.nodes ==> g.nodes[id].kind in kinds
    ensures var kinds := TallyOf(g.edges.Keys, KindOf(g.edges));
      (forall t :: t in kinds ==> kinds[t] == |set e | e in g.edges.Keys && g.edges[e].kind == t|) &&
      forall e :: e in g.edges ==> g.edges[e].kind in kinds
  {
    var f, h := NodeKind(g.nodes), KindOf(g.edges);
    forall t ensures Fiber(g.nodes.Keys, f, t) == set id | id in g.nodes.Keys && g.nodes[id].kind == t {
    }
    forall t ensures Fiber(g.edges.Keys, h, t) == set e | e in g.edges.Keys && g.edges[e].kind == t {
    }
    forall id | id in g.nodes ensures g.nodes[id].kind in Image(g.nodes.Keys, f) {
      assert f(id) == g.nodes[id].kind;
    }
    forall e | e in g.edges ensures g.edges[e].kind in Image(g.edges.Keys, h) {
      assert h(e) == g.edges[e].kind;
    }
  }

  /** None stands for the division by zero raised on a graph without nodes. */
  method GraphMetrics(g: Graph) returns (r: Option<Metrics>)
    requires Valid(g)
    ensures r.None? <==> g.nodes == map[]
    ensures r.Some? ==> r.value.nodes == |g.nodes| && r.value.edges == |g.edges|
    ensures r.Some? ==> r.value.averageIn == r.value.averageOut == |g.edges| as real / |g.nodes| as real
    ensures r.Some? ==> r.value.kinds == TallyOf(g.nodes.Keys, NodeKind(g.nodes))
    ensures r.Some? ==> r.value.edgeKinds == TallyOf(g.edges.Keys, KindOf(g.edges))
    ensures r.Some? ==> forall t :: t in r.value.kinds ==>
      r.value.kinds[t] == |set id | id in g.nodes.Keys && g.nodes[id].kind == t|
    ensures r.Some? ==> forall t :: t in r.value.edgeKinds ==>
      r.value.edgeKinds[t] == |set e | e in g.edges.Keys && g.edges[e].kind == t|
    ensures r.Some? ==> forall id :: id in g.nodes ==> g.nodes[id].kind in r.value.kinds
    ensures r.Some? ==> forall e :: e in g.edges ==> g.edges[e].kind in r.value.edgeKinds
    ensures r.Some? ==> SizeList(g.nodes, r.value.modules)
  {
    hide SizeList, NodeKind, KindOf, TallyOf;
    if |g.nodes| == 0 {
      return None;
    }
    var ins := DegreeSum(g, (e: Edge) => e.dst);
    var outs := DegreeSum(g, (e: Edge) => e.src);
    var kinds := CountBy(g.nodes.Keys, NodeKind(g.nodes));
    var edgeKinds := CountBy(g.edges.Keys, KindOf(g.edges));
    var modules := ModuleSizes(g.nodes);
    KindsCounted(g);
    return Some(Metrics(|g.nodes|, |g.edges|, ins as real / |g.nodes| as real, outs as real / |g.nodes| as real,
      kinds, edgeKinds, modules));
  }

  // ----- Agreement -----

  ghost function Sizes(list: seq<ModuleSize>): seq<int> {
    seq(|list|, (i: int) requires 0 <= i < |list| => list[i].size)
  }

  ghost function Afferents(rows: seq<Coupling>): seq<int> {
    seq(|rows|, (i: int) requires 0 <= i < |rows| => rows[i].afferent)
  }

  ghost function Efferents(rows: seq<Coupling>): seq<int> {
    seq(|rows|, (i: int) requires 0 <= i < |rows| => rows[i].efferent)
  }

  /** Module sizes sum to the number of nodes. */
  lemma SizesSum(nodes: map<Id, Node>, list: seq<ModuleSize>)
    requires SizeList(nodes, list)
    ensures Sum(Sizes(list)) == |nodes|
  {
    hide ModuleOf;
    var name := (s: ModuleSize) => s.name;
    var ks := Image(nodes.Keys, ModuleOf(nodes));
    EntryKeys(list, ks, SizeOf(nodes), name);
    forall i | 0 <= i < |list| ensures list[i].size == |Fiber(nodes.Keys, ModuleOf(nodes), list[i].name)| {
      EntryKey(list, ks, SizeOf(nodes), name, i);
    }
    PartitionAll(nodes.Keys, ModuleOf(nodes), Keys(list, name), Sizes(list));
  }

  /** Total afferent coupling, total efferent coupling and the number of cross-module edges are one number. */
  lemma CouplingBalance(nodes: map<Id, Node>, cross: set<Edge>, rows: seq<Coupling>)
    requires CouplingList(nodes, cross, rows)
    ensures Sum(Afferents(rows)) == Sum(Efferents(rows)) == |cross|
  {
    hide Source, Target;
    var name := (c: Coupling) => c.name;
    var make := CouplingOf(nodes, cross);
    EntryKeys(rows, Touched(nodes, cross), make, name);
    forall i | 0 <= i < |rows|
      ensures rows[i].afferent == |Fiber(cross, Target(nodes), rows[i].name)|
      ensures rows[i].efferent == |Fiber(cross, Source(nodes), rows[i].name)|
    {
      EntryKey(rows, Touched(nodes, cross), make, name, i);
    }
    PartitionAll(cross, Target(nodes), Keys(rows, name), Afferents(rows));
    PartitionAll(cross, Source(nodes), Keys(rows, name), Efferents(rows));
  }

  ghost predicate Agrees(d: Dependency, t: Tight) {
    d.source == t.source && d.target == t.target && d.total == t.count
  }

  /** Every shown tight pair is a dependency with the same total, however the two analyses counted it. */
  lemma TightIsDependency(nodes: map<Id, Node>, edges: map<Edge, Link>, cross: set<Edge>,
                          full: seq<Tight>, tight: seq<Tight>, list: seq<Dependency>, i: nat) returns (j: nat)
    requires ShowsTight(nodes, cross, full, tight) && DependencyList(nodes, edges, cross, list) && i < |tight|
    ensures j < |list| && Agrees(list[j], tight[i])
  {
    hide Ends, KindOf, Ordered;
    var key := (t: Tight) => (t.source, t.target);
    assert tight[i] == full[i];
    EntryKey(full, PairsFrom(nodes, cross, TIGHT), TightOf(nodes, cross), key, i);
    var p := key(full[i]);
    var make := DependencyOf(nodes, edges, cross);
    assert p in PairsFrom(nodes, cross, SIGNIFICANT);
    assert make(p) in Image(PairsFrom(nodes, cross, SIGNIFICANT), make);
    assert make(p) in list;
    j :| 0 <= j < |list| && list[j] == make(p);
  }

  ghost predicate TightListed(tight: seq<Tight>, list: seq<Dependency>) {
    forall i :: 0 <= i < |tight| ==> Listed(tight[i], list)
  }

  ghost predicate Listed(t: Tight, list: seq<Dependency>) {
    exists j :: 0 <= j < |list| && Agrees(list[j], t)
  }

  lemma AllTightListed(nodes: map<Id, Node>, edges: map<Edge, Link>, cross: set<Edge>, tight: seq<Tight>,
                       list: seq<Dependency>)
    requires (exists full :: ShowsTight(nodes, cross, full, tight)) && DependencyList(nodes, edges, cross, list)
    ensures TightListed(tight, list)
  {
    hide DependencyList, ShowsTight;
    var full :| ShowsTight(nodes, cross, full, tight);
    forall i | 0 <= i < |tight| ensures Listed(tight[i], list) {
      var j := TightIsDependency(nodes, edges, cross, full, tight, list, i);
    }
  }

  /**
   The converse: a dependency of at least twenty edges is a tight pair, shown unless thirty others are at least
   as heavy.
   */
  lemma HeavyDependencyIsTight(nodes: map<Id, Node>, edges: map<Edge, Link>, cross: set<Edge>,
                               full: seq<Tight>, tight: seq<Tight>, list: seq<Dependency>, j: nat)
    requires ShowsTight(nodes, cross, full, tight) && DependencyList(nodes, edges, cross, list)
    requires j < |list| && list[j].total >= 20
    ensures (exists i :: 0 <= i < |tight| && Agrees(list[j], tight[i])) ||
            (|tight| == 30 && forall i :: 0 <= i < |tight| ==> tight[i].count >= list[j].total)
  {
    hide Ends, KindOf;
    var key := (d: Dependency) => (d.source, d.target);
    EntryKey(list, PairsFrom(nodes, cross, SIGNIFICANT), DependencyOf(nodes, edges, cross), key, j);
    var p := key(list[j]);
    var make := TightOf(nodes, cross);
    assert p in PairsFrom(nodes, cross, TIGHT);
    assert make(p) in Image(PairsFrom(nodes, cross, TIGHT), make);
    assert make(p) in full;
    var i :| 0 <= i < |full| && full[i] == make(p);
    assert Agrees(list[j], full[i]);
    if i < |tight| {
      assert Agrees(list[j], tight[i]);
    }
  }

  /** The two module distributions hold the same modules with the same sizes. */
  lemma SizesAgree(nodes: map<Id, Node>, a: seq<ModuleSize>, b: seq<ModuleSize>)
    requires SizeList(nodes, a) && SizeList(nodes, b)
    ensures multiset(a) == multiset(b)
  {
    hide SizeOf, Ordered;
    assert forall x :: x in a <==> x in Elements(a);
    assert forall x :: x in b <==> x in Elements(b);
    DistinctPermutation(a, b);
  }

  // ----- The whole analysis -----

  datatype Results = Results(metrics: Metrics, coupling: seq<Coupling>, tight: seq<Tight>,
                             modules: seq<ModuleSize>, dependencies: seq<Dependency>, totalNodes: nat, totalEdges: nat)

  function Joined(row: Row): Edge {
    Edge(row.src, row.dst)
  }

  lemma {:induction false} BuiltFromSurviving(nodes: map<Id, Node>, rows: seq<Row>)
    ensures Built(nodes, rows).Keys == Elements(Keys(Surviving(nodes, rows), Joined))
  {
    if rows != [] {
      var front, last := rows[..|rows| - 1], rows[|rows| - 1];
      BuiltFromSurviving(nodes, front);
      var left := Surviving(nodes, front);
      assert Keys(left + [last], Joined) == Keys(left, Joined) + [Joined(last)];
      ElementsAppend(Keys(left, Joined), Joined(last));
      assert left + [] == left;
    }
  }

  /**
   The metadata counts rows and the metrics count edges: the same number exactly when no two rows join the same
   ends.
   */
  lemma EdgeTotals(nodes: map<Id, Node>, rows: seq<Row>)
    ensures |Built(nodes, rows)| <= |Surviving(nodes, rows)|
    ensures |Built(nodes, rows)| == |Surviving(nodes, rows)| <==> Distinct(Keys(Surviving(nodes, rows), Joined))
  {
    BuiltFromSurviving(nodes, rows);
    DistinctSize(Keys(Surviving(nodes, rows), Joined));
    assert |Built(nodes, rows)| == |Built(nodes, rows).Keys|;
  }

  /** The two totals do differ: two rows of different types between the same nodes. */
  lemma EdgeTotalsDiffer(nodes: map<Id, Node>, first: Row, second: Row)
    requires Joins(nodes, first) && Joined(first) == Joined(second) && first.kind != second.kind
    ensures |Surviving(nodes, [first, second])| == 2 && |Built(nodes, [first, second])| == 1
    ensures Built(nodes, [first, second])[Joined(first)].kind == second.kind
  {
    AppendRow(nodes, [], first);
    AppendRow(nodes, [first], second);
    assert [] + [first] == [first] && [first] + [second] == [first, second];
  }

  lemma AppendRow(nodes: map<Id, Node>, rows: seq<Row>, row: Row)
    requires Joins(nodes, row)
    ensures Built(nodes, rows + [row]) == Built(nodes, rows)[Joined(row) := Link(row.kind, row.weight)]
    ensures Surviving(nodes, rows + [row]) == Surviving(nodes, rows) + [row]
  {
    assert (rows + [row])[..|rows|] == rows;
  }

  /** Everything the separately written aggregates promise each other, over any stored nodes and rows. */
  method Analyze(stored: map<Id, Node>, rows: seq<Row>) returns (r: Option<Results>)
    ensures r.None? <==> Kept(stored) == map[]
    ensures r.Some? ==>
      r.value.totalNodes == r.value.metrics.nodes == Sum(Sizes(r.value.modules)) == |Kept(stored)| &&
      multiset(r.value.modules) == multiset(r.value.metrics.modules)
    ensures r.Some? ==>
      r.value.metrics.averageIn == r.value.metrics.averageOut && r.value.metrics.edges <= r.value.totalEdges
    ensures r.Some? ==>
      Sum(Afferents(r.value.coupling)) == Sum(Efferents(r.value.coupling)) ==
      |Cross(Kept(stored), Built(Kept(stored), rows).Keys)|
    ensures r.Some? ==> TightListed(r.value.tight, r.value.dependencies)
  {
    hide Built, Surviving, Kept, Cross, CouplingList, DependencyList, SizeList, ShowsTight, TallyOf, TightListed;
    var nodes, left := FilterNodes(stored, rows);
    var g := BuildGraph(nodes, left);
    FilterKeepsGraph(nodes, rows);
    EdgeTotals(nodes, rows);
    var metrics := GraphMetrics(g);
    if metrics.None? {
      return None;
    }
    var coupling, tight := AnalyzeCoupling(nodes, g.edges);
    var modules, dependencies := DependencyData(nodes, g.edges);
    ghost var cross := Cross(nodes, g.edges.Keys);
    CouplingBalance(nodes, cross, coupling);
    SizesAgree(nodes, modules, metrics.value.modules);
    AllTightListed(nodes, g.edges, cross, tight, dependencies);
    return Some(Results(metrics.value, coupling, tight, modules, dependencies, |nodes|, |left|));
  }
}
