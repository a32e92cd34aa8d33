/**
 The code graph and its aggregates (scripts/comprehensive_graph_analysis.py): filtering and building the graph
 (lines 70-95), module coupling (296-352), degree and distribution metrics (467-498) and the dependency data
 for diagrams (501-538).
 */
module ModuleCoupling {
  import opened Wrappers
  import opened FiniteSets
  import opened Counting
  import opened Sorting
  import opened Selections
  import opened ModuleNames
  import SourcePaths

  type Id = string

  datatype Node = Node(kind: string, file: string)

  /** One stored row; several rows may join the same two nodes. */
  datatype Row = Row(src: Id, dst: Id, kind: string, weight: real)

  datatype Edge = Edge(src: Id, dst: Id)

  datatype Link = Link(kind: string, weight: real)

  /** A directed graph without parallel edges. */
  datatype Graph = Graph(nodes: map<Id, Node>, edges: map<Edge, Link>)

  ghost predicate Valid(g: Graph) {
    forall e :: e in g.edges ==> e.src in g.nodes && e.dst in g.nodes
  }

  // ----- Filtering and building -----

  ghost function Kept(nodes: map<Id, Node>): map<Id, Node> {
    map id | id in nodes && Included(nodes[id].file) :: nodes[id]
  }

  ghost function Joins(nodes: map<Id, Node>, row: Row): bool {
    row.src in nodes && row.dst in nodes
  }

  ghost function Surviving(nodes: map<Id, Node>, rows: seq<Row>): seq<Row> {
    if rows == [] then []
    else
      var front, last := rows[..|rows| - 1], rows[|rows| - 1];
      Surviving(nodes, front) + if Joins(nodes, last) then [last] else []
  }

  ghost function Built(nodes: map<Id, Node>, rows: seq<Row>): map<Edge, Link> {
    if rows == [] then map[]
    else
      var front, last := Built(nodes, rows[..|rows| - 1]), rows[|rows| - 1];
      if Joins(nodes, last) then front[Edge(last.src, last.dst) := Link(last.kind, last.weight)] else front
  }

  /** The positions of the rows with both ends among the nodes. */
  ghost function JoinedAt(nodes: map<Id, Node>, rows: seq<Row>): set<int> {
    set k | 0 <= k < |rows| && rows[k].src in nodes && rows[k].dst in nodes
  }

  lemma {:induction false} SurvivingSelects(nodes: map<Id, Node>, rows: seq<Row>)
    ensures Selects(rows, JoinedAt(nodes, rows), Surviving(nodes, rows))
  {
    if rows == [] {
      assert JoinedAt(nodes, rows) == {};
      SelectNone(rows);
    } else {
      var n := |rows| - 1;
      var front, before := Surviving(nodes, rows[..n]), JoinedAt(nodes, rows[..n]);
      SurvivingSelects(nodes, rows[..n]);
      SelectLonger(rows, n, before, front);
      if Joins(nodes, rows[n]) {
        assert JoinedAt(nodes, rows) == before + {n};
        SelectMore(rows, before, front, n);
      } else {
        assert JoinedAt(nodes, rows) == before && front + [] == front;
      }
    }
  }

  /** The kept nodes among some of the ids. */
  ghost function KeptOf(nodes: map<Id, Node>, ids: set<Id>): map<Id, Node> {
    map id | id in ids && id in nodes && Included(nodes[id].file) :: nodes[id]
  }

  lemma KeptAdd(nodes: map<Id, Node>, ids: set<Id>, id: Id)
    requires id in nodes
    ensures KeptOf(nodes, ids + {id}) ==
            if Included(nodes[id].file) then KeptOf(nodes, ids)[id := nodes[id]] else KeptOf(nodes, ids)
  {
    hide Included;
  }

  method FilterNodes(nodes: map<Id, Node>, rows: seq<Row>) returns (kept: map<Id, Node>, left: seq<Row>)
    ensures kept == Kept(nodes) && left == Surviving(kept, rows)
    ensures forall id :: id in kept <==> id in nodes && Included(nodes[id].file)
    ensures forall id :: id in kept ==> kept[id] == nodes[id]
    ensures Selects(rows, JoinedAt(kept, rows), left)
  {
    hide Included;
    kept := map[];
    var ids := Listing(nodes.Keys);
    for i := 0 to |ids|
      invariant kept == KeptOf(nodes, Elements(ids[..i]))
    {
      assert ids[i] in Elements(ids);
      TakeOneMore(ids, i);
      KeptAdd(nodes, Elements(ids[..i]), ids[i]);
      if IsIncluded(nodes[ids[i]].file) {
        kept := kept[ids[i] := nodes[ids[i]]];
      }
    }
    assert ids[..|ids|] == ids;
    left := FilterRows(kept, rows);
    SurvivingSelects(kept, rows);
  }

  method FilterRows(kept: map<Id, Node>, rows: seq<Row>) returns (left: seq<Row>)
    ensures left == Surviving(kept, rows)
  {
    left := [];
    for i := 0 to |rows|
      invariant left == Surviving(kept, rows[..i])
    {
      assert rows[..i + 1][..i] == rows[..i];
      if rows[i].src in kept && rows[i].dst in kept {
        left := left + [rows[i]];
      }
    }
    assert rows[..|rows|] == rows;
  }

  method BuildGraph(nodes: map<Id, Node>, rows: seq<Row>) returns (g: Graph)
    ensures g == Graph(nodes, Built(nodes, rows)) && Valid(g)
  {
    var edges: map<Edge, Link> := map[];
    for i := 0 to |rows|
      invariant edges == Built(nodes, rows[..i]) && Valid(Graph(nodes, edges))
    {
      assert rows[..i + 1][..i] == rows[..i];
      if rows[i].src in nodes && rows[i].dst in nodes {
        edges := edges[Edge(rows[i].src, rows[i].dst) := Link(rows[i].kind, rows[i].weight)];
      }
    }
    assert rows[..|rows|] == rows;
    g := Graph(nodes, edges);
  }

  /** Row i joins the two nodes and no later row does. */
  ghost predicate LastJoining(nodes: map<Id, Node>, rows: seq<Row>, e: Edge, i: int) {
    0 <= i < |rows| && Joins(nodes, rows[i]) && Edge(rows[i].src, rows[i].dst) == e &&
    forall j :: i < j < |rows| ==> Edge(rows[j].src, rows[j].dst) != e
  }

  /** Parallel rows collapse into one edge, which carries the type and weight of the last of them. */
  lemma {:induction false} LastRowWins(nodes: map<Id, Node>, rows: seq<Row>, e: Edge)
    ensures e in Built(nodes, rows) <==> exists i :: LastJoining(nodes, rows, e, i)
    ensures forall i :: LastJoining(nodes, rows, e, i) ==>
      e in Built(nodes, rows) && Built(nodes, rows)[e] == Link(rows[i].kind, rows[i].weight)
  {
    if rows != [] {
      var n := |rows| - 1;
      LastRowWins(nodes, rows[..n], e);
      if Joins(nodes, rows[n]) && Edge(rows[n].src, rows[n].dst) == e {
        assert LastJoining(nodes, rows, e, n);
      } else if Edge(rows[n].src, rows[n].dst) != e {
        forall i ensures LastJoining(nodes, rows, e, i) <==> LastJoining(nodes, rows[..n], e, i) {
        }
      } else {
        NeverJoins(nodes, rows, e);
      }
    }
  }

  lemma {:induction false} NeverJoins(nodes: map<Id, Node>, rows: seq<Row>, e: Edge)
    requires !(e.src in nodes && e.dst in nodes)
    ensures e !in Built(nodes, rows)
  {
    if rows != [] {
      NeverJoins(nodes, rows[..|rows| - 1], e);
    }
  }

  /** Dropping rows with a missing end beforehand does not change the graph. */
  lemma {:induction false} FilterKeepsGraph(nodes: map<Id, Node>, rows: seq<Row>)
    ensures Built(nodes, Surviving(nodes, rows)) == Built(nodes, rows)
  {
    if rows != [] {
      var front, last := rows[..|rows| - 1], rows[|rows| - 1];
      FilterKeepsGraph(nodes, front);
      var left := Surviving(nodes, front);
      assert (left + [last])[..|left|] == left && left + [] == left;
    }
  }

  // ----- Modules -----

  ghost function ModuleName(nodes: map<Id, Node>, id: Id): string {
    if id in nodes then Submodule(nodes[id].file) else ""
  }

  ghost function ModuleOf(nodes: map<Id, Node>): Id -> string {
    (id: Id) => ModuleName(nodes, id)
  }

  ghost function Source(nodes: map<Id, Node>): Edge -> string {
    (e: Edge) => ModuleName(nodes, e.src)
  }

  ghost function Target(nodes: map<Id, Node>): Edge -> string {
    (e: Edge) => ModuleName(nodes, e.dst)
  }

  ghost function Ends(nodes: map<Id, Node>): Edge -> (string, string) {
    Both(Source(nodes), Target(nodes))
  }

  function KindOf(edges: map<Edge, Link>): Edge -> string {
    (e: Edge) => if e in edges then edges[e].kind else ""
  }

  ghost predicate IsCross(nodes: map<Id, Node>, e: Edge) {
    e.src in nodes && e.dst in nodes && Source(nodes)(e) != Target(nodes)(e)
  }

  /** The edges between different modules. */
  ghost function Cross(nodes: map<Id, Node>, edges: set<Edge>): set<Edge> {
    set e | e in edges && IsCross(nodes, e)
  }

  lemma CrossAdd(nodes: map<Id, Node>, edges: set<Edge>, e: Edge)
    ensures Cross(nodes, edges + {e}) == if IsCross(nodes, e) then Cross(nodes, edges) + {e} else Cross(nodes, edges)
  {
    hide Source, Target, Submodule;
  }

  lemma IsCrossMeans(nodes: map<Id, Node>, e: Edge)
    ensures IsCross(nodes, e) <==>
              e.src in nodes && e.dst in nodes && Submodule(nodes[e.src].file) != Submodule(nodes[e.dst].file)
    ensures e.src in nodes ==> Source(nodes)(e) == Submodule(nodes[e.src].file)
    ensures e.dst in nodes ==> Target(nodes)(e) == Submodule(nodes[e.dst].file)
  {
  }

  /** Files below the same `victor/<x>/` are never joined by a cross-module edge. */
  lemma SameDirectoryNotCross(nodes: map<Id, Node>, e: Edge, a: seq<string>, b: seq<string>, x: string,
                              c: seq<string>, d: seq<string>)
    requires e.src in nodes && e.dst in nodes && "victor" !in a && "victor" !in b
    requires PlainParts(a + ["victor", x] + c) && PlainParts(b + ["victor", x] + d)
    requires nodes[e.src].file == SourcePaths.Join(a + ["victor", x] + c)
    requires nodes[e.dst].file == SourcePaths.Join(b + ["victor", x] + d)
    ensures !IsCross(nodes, e)
  {
    BelowVictor(a, x, c);
    BelowVictor(b, x, d);
    IsCrossMeans(nodes, e);
  }

  lemma CountEdge(nodes: map<Id, Node>, seen: set<Edge>, e: Edge)
    requires e !in seen
    ensures NestedTallyOf(Cross(nodes, seen + {e}), Source(nodes), Target(nodes)) ==
            if !IsCross(nodes, e) then NestedTallyOf(Cross(nodes, seen), Source(nodes), Target(nodes))
            else BumpIn(NestedTallyOf(Cross(nodes, seen), Source(nodes), Target(nodes)), Source(nodes)(e),
              Target(nodes)(e))
  {
    hide Source, Target, Submodule, NestedTallyOf, BumpIn;
    CrossAdd(nodes, seen, e);
    BumpInTallies(Cross(nodes, seen), Source(nodes), Target(nodes), e);
  }

  // ----- Coupling -----

  datatype Coupling = Coupling(name: string, afferent: nat, efferent: nat, total: nat, instability: real)

  datatype Tight = Tight(source: string, target: string, count: nat)

  predicate HeavierModule(a: Coupling, b: Coupling) {
    a.total >= b.total
  }

  predicate HeavierPair(a: Tight, b: Tight) {
    a.count >= b.count
  }

  const TIGHT: nat := 20

  const SHOWN: nat := 30

  /** A module's row, read off the edges of the code graph: those that end in it and those that leave it. */
  ghost function CouplingOf(nodes: map<Id, Node>, cross: set<Edge>): string -> Coupling {
    (m: string) =>
      var afferent, efferent := |Fiber(cross, Target(nodes), m)|, |Fiber(cross, Source(nodes), m)|;
      Coupling(m, afferent, efferent, afferent + efferent,
        if afferent + efferent == 0 then 0.0 else efferent as real / (afferent + efferent) as real)
  }

  ghost function Touched(nodes: map<Id, Node>, cross: set<Edge>): set<string> {
    Image(cross, Source(nodes)) + Image(cross, Target(nodes))
  }

  ghost function TightOf(nodes: map<Id, Node>, cross: set<Edge>): ((string, string)) -> Tight {
    (p: (string, string)) => Tight(p.0, p.1, |Fiber(cross, Ends(nodes), p)|)
  }

  /** The module pairs joined by at least `least` edges. */
  ghost function PairsFrom(nodes: map<Id, Node>, cross: set<Edge>, least: nat): set<(string, string)> {
    set p | p in Image(cross, Ends(nodes)) && |Fiber(cross, Ends(nodes), p)| >= least
  }

  ghost predicate CouplingList(nodes: map<Id, Node>, cross: set<Edge>, list: seq<Coupling>) {
    Entries(list, Touched(nodes, cross), CouplingOf(nodes, cross)) &&
    forall i, j :: 0 <= i < j < |list| ==> list[i].total >= list[j].total
  }

  ghost predicate TightList(nodes: map<Id, Node>, cross: set<Edge>, list: seq<Tight>) {
    Entries(list, PairsFrom(nodes, cross, 20), TightOf(nodes, cross)) &&
    forall i, j :: 0 <= i < j < |list| ==> list[i].count >= list[j].count
  }

  method CountModuleEdges(nodes: map<Id, Node>, edges: map<Edge, Link>) returns (counts: map<string, map<string, nat>>)
    ensures counts == NestedTallyOf(Cross(nodes, edges.Keys), Source(nodes), Target(nodes))
  {
    hide Source, Target, Submodule, NestedTallyOf, BumpIn, IsCross;
    counts := map[];
    var list := Listing(edges.Keys);
    NoEdges(nodes);
    for i := 0 to |list|
      invariant counts == NestedTallyOf(Cross(nodes, Elements(list[..i])), Source(nodes), Target(nodes))
    {
      var e := list[i];
      TakeOneMore(list, i);
      CountEdge(nodes, Elements(list[..i]), e);
      IsCrossMeans(nodes, e);
      if e.src in nodes && e.dst in nodes {
        var a, b := Submodule(nodes[e.src].file), Submodule(nodes[e.dst].file);
        if a != b {
          counts := BumpIn(counts, a, b);
        }
      }
    }
    assert list[..|list|] == list;
  }

  lemma NoEdges(nodes: map<Id, Node>)
    ensures NestedTallyOf(Cross(nodes, Elements([])), Source(nodes), Target(nodes)) == map[]
  {
    assert Cross(nodes, Elements([])) == {};
  }

  lemma TakeOneMore<T>(list: seq<T>, i: nat)
    requires Distinct(list) && i < |list|
    ensures Elements(list[..i + 1]) == Elements(list[..i]) + {list[i]} && list[i] !in Elements(list[..i])
  {
    assert list[..i + 1] == list[..i] + [list[i]];
    ElementsAppend(list[..i], list[i]);
  }

  /** The edge weights of the module graph. */
  method FlattenCounts<A(==), B(==)>(counts: map<A, map<B, nat>>) returns (weights: map<(A, B), nat>)
    ensures forall a, b :: (a, b) in weights <==> a in counts && b in counts[a]
    ensures forall a, b :: (a, b) in weights ==> weights[(a, b)] == counts[a][b]
  {
    weights := map[];
    var outer := Listing(counts.Keys);
    for i := 0 to |outer|
      invariant forall a, b :: (a, b) in weights <==> a in outer[..i] && b in counts[a]
      invariant forall a, b :: (a, b) in weights ==> weights[(a, b)] == counts[a][b]
    {
      assert outer[i] in Elements(outer);
      var inner := Listing(counts[outer[i]].Keys);
      for j := 0 to |inner|
        invariant forall a, b :: (a, b) in weights <==>
          (a in outer[..i] && b in counts[a]) || (a == outer[i] && b in inner[..j])
        invariant forall a, b :: (a, b) in weights ==> weights[(a, b)] == counts[a][b]
      {
        assert inner[j] in Elements(inner);
        weights := weights[(outer[i], inner[j]) := counts[outer[i]][inner[j]]];
      }
      assert forall b :: b in inner[..|inner|] <==> b in Elements(inner);
    }
    assert forall a :: a in outer[..|outer|] <==> a in Elements(outer);
  }

  lemma SameMap<K, V>(a: map<K, V>, b: map<K, V>)
    requires forall k :: k in a <==> k in b
    requires forall k :: k in a ==> a[k] == b[k]
    ensures a == b
  {
  }

  lemma FlattenedTally<E, A, B>(s: set<E>, f: E -> A, g: E -> B, weights: map<(A, B), nat>)
    requires forall a, b :: (a, b) in weights <==> a in NestedTallyOf(s, f, g) && b in NestedTallyOf(s, f, g)[a]
    requires forall a, b :: (a, b) in weights ==> weights[(a, b)] == NestedTallyOf(s, f, g)[a][b]
    ensures weights == TallyOf(s, Both(f, g))
  {
    var t := NestedTallyOf(s, f, g);
    forall a, b ensures (a, b) in weights <==> (a, b) in Image(s, Both(f, g)) {
      NestedCell(s, f, g, a, b);
      assert a in t ==> t[a].Keys == Image(Fiber(s, f, a), g);
    }
    forall a, b | (a, b) in weights ensures weights[(a, b)] == |Fiber(s, Both(f, g), (a, b))| {
      NestedCell(s, f, g, a, b);
    }
    var tally := TallyOf(s, Both(f, g));
    forall p ensures p in weights <==> p in tally {
      assert p == (p.0, p.1);
    }
    forall p | p in weights ensures weights[p] == tally[p] {
      assert p == (p.0, p.1);
    }
    SameMap(weights, tally);
  }

  /** The weights of the module edges into m sum to the number of code edges that end in m. */
  method SumInto<E, A(==), B(==)>(weights: map<(A, B), nat>, m: B, ghost s: set<E>, ghost f: E -> A, ghost g: E -> B)
    returns (n: nat)
    requires weights == TallyOf(s, Both(f, g))
    ensures n == |Fiber(s, g, m)|
  {
    var arriving := Listing(set p | p in weights.Keys && p.1 == m :: p.0);
    var counts := seq(|arriving|, (i: int) requires 0 <= i < |arriving| =>
      if (arriving[i], m) in weights then weights[(arriving[i], m)] else 0);
    ghost var fiber := Fiber(s, g, m);
    forall i | 0 <= i < |arriving| ensures counts[i] == |Fiber(fiber, f, arriving[i])| {
      assert arriving[i] in Elements(arriving);
      NestedCell(s, f, g, arriving[i], m);
    }
    forall a | a in Image(fiber, f) ensures a in Elements(arriving) {
      NestedCell(s, f, g, a, m);
      FiberEmpty(fiber, f, a);
      FiberEmpty(s, Both(f, g), (a, m));
    }
    PartitionAll(fiber, f, arriving, counts);
    n := Sum(counts);
  }

  /** The weights of the module edges out of m sum to the number of code edges that leave m. */
  method SumOutOf<E, A(==), B(==)>(weights: map<(A, B), nat>, m: A, ghost s: set<E>, ghost f: E -> A, ghost g: E -> B)
    returns (n: nat)
    requires weights == TallyOf(s, Both(f, g))
    ensures n == |Fiber(s, f, m)|
  {
    var leaving := Listing(set p | p in weights.Keys && p.0 == m :: p.1);
    var counts := seq(|leaving|, (i: int) requires 0 <= i < |leaving| =>
      if (m, leaving[i]) in weights then weights[(m, leaving[i])] else 0);
    ghost var fiber := Fiber(s, f, m);
    forall i | 0 <= i < |leaving| ensures counts[i] == |Fiber(fiber, g, leaving[i])| {
      assert leaving[i] in Elements(leaving);
      NestedCell(s, f, g, m, leaving[i]);
    }
    forall b | b in Image(fiber, g) ensures b in Elements(leaving) {
      NestedCell(s, f, g, m, b);
      FiberEmpty(fiber, g, b);
      FiberEmpty(s, Both(f, g), (m, b));
    }
    PartitionAll(fiber, g, leaving, counts);
    n := Sum(counts);
  }

  lemma EndsOfPairs<E, A, B>(s: set<E>, f: E -> A, g: E -> B)
    ensures (set p | p in Image(s, Both(f, g)) :: p.0) == Image(s, f)
    ensures (set p | p in Image(s, Both(f, g)) :: p.1) == Image(s, g)
  {
    forall e | e in s
      ensures f(e) in (set p | p in Image(s, Both(f, g)) :: p.0)
      ensures g(e) in (set p | p in Image(s, Both(f, g)) :: p.1)
    {
      assert Both(f, g)(e) in Image(s, Both(f, g));
    }
  }

  lemma SortedEntries<K, T(!new)>(list: seq<T>, ks: set<K>, make: K -> T, le: (T, T) -> bool)
    requires Entries(list, ks, make) && TotalPreorder(le)
    ensures Entries(Sorted(list, le), ks, make) && Ordered(Sorted(list, le), le)
  {
    SortedOrdered(list, le);
    PermutationDistinct(list, Sorted(list, le));
    assert Elements(list) == Elements(Sorted(list, le));
  }

  /** The row of one module, from the weights of the module graph. */
  method CoupleModule(weights: map<(string, string), nat>, m: string, ghost nodes: map<Id, Node>,
                      ghost cross: set<Edge>)
    returns (row: Coupling)
    requires weights == TallyOf(cross, Both(Source(nodes), Target(nodes)))
    ensures row == CouplingOf(nodes, cross)(m)
  {
    hide Source, Target, TallyOf;
    var afferent := SumInto(weights, m, cross, Source(nodes), Target(nodes));
    var efferent := SumOutOf(weights, m, cross, Source(nodes), Target(nodes));
    var total := afferent + efferent;
    row := Coupling(m, afferent, efferent, total, if total > 0 then efferent as real / total as real else 0.0);
  }

  method CouplingTable(weights: map<(string, string), nat>, ghost nodes: map<Id, Node>, ghost cross: set<Edge>)
    returns (rows: seq<Coupling>)
    requires weights == TallyOf(cross, Both(Source(nodes), Target(nodes)))
    ensures CouplingList(nodes, cross, rows)
  {
    hide Source, Target, TallyOf, Ordered, CouplingOf;
    rows := [];
    var modules := Listing((set p | p in weights.Keys :: p.0) + (set p | p in weights.Keys :: p.1));
    ghost var make := CouplingOf(nodes, cross);
    ghost var name := (c: Coupling) => c.name;
    for i := 0 to |modules|
      invariant Entries(rows, Elements(modules[..i]), make)
    {
      var m := modules[i];
      TakeOneMore(modules, i);
      var row := CoupleModule(weights, m, nodes, cross);
      CouplingNamed(nodes, cross);
      EntriesAdd(rows, Elements(modules[..i]), make, m, name);
      rows := rows + [row];
    }
    assert modules[..|modules|] == modules;
    TallyKeys(cross, Both(Source(nodes), Target(nodes)));
    EndsOfPairs(cross, Source(nodes), Target(nodes));
    HeavierModuleOrders();
    SortedEntries(rows, Touched(nodes, cross), make, HeavierModule);
    rows := Sorted(rows, HeavierModule);
    ModulesDescend(rows);
  }

  lemma TallyKeys<E, K>(s: set<E>, f: E -> K)
    ensures TallyOf(s, f).Keys == Image(s, f)
  {
  }

  lemma CouplingNamed(nodes: map<Id, Node>, cross: set<Edge>)
    ensures forall m :: CouplingOf(nodes, cross)(m).name == m
  {
  }

  lemma HeavierModuleOrders()
    ensures TotalPreorder(HeavierModule)
  {
  }

  lemma ModulesDescend(rows: seq<Coupling>)
    requires Ordered(rows, HeavierModule)
    ensures forall i, j :: 0 <= i < j < |rows| ==> rows[i].total >= rows[j].total
  {
    assert forall i, j :: 0 <= i < j < |rows| ==> HeavierModule(rows[i], rows[j]);
  }

  lemma PairsDescend(list: seq<Tight>)
    requires Ordered(list, HeavierPair)
    ensures forall i, j :: 0 <= i < j < |list| ==> list[i].count >= list[j].count
  {
    assert forall i, j :: 0 <= i < j < |list| ==> HeavierPair(list[i], list[j]);
  }

  lemma HeavierPairOrders()
    ensures TotalPreorder(HeavierPair)
  {
  }

  ghost function AtLeast<K>(weights: map<K, nat>, ks: set<K>, least: nat): set<K> {
    set k | k in ks && k in weights && weights[k] >= least
  }

  method TightPairs(weights: map<(string, string), nat>, ghost nodes: map<Id, Node>, ghost cross: set<Edge>)
    returns (list: seq<Tight>)
    requires weights == TallyOf(cross, Ends(nodes))
    ensures TightList(nodes, cross, list)
  {
    hide Source, Target, Ordered;
    list := [];
    var pairs := Listing(weights.Keys);
    ghost var make := TightOf(nodes, cross);
    ghost var key := (t: Tight) => (t.source, t.target);
    for i := 0 to |pairs|
      invariant Entries(list, AtLeast(weights, Elements(pairs[..i]), TIGHT), make)
    {
      var p := pairs[i];
      TakeOneMore(pairs, i);
      assert p in Elements(pairs);
      ghost var before := AtLeast(weights, Elements(pairs[..i]), TIGHT);
      ghost var after := AtLeast(weights, Elements(pairs[..i + 1]), TIGHT);
      if weights[p] >= TIGHT {
        assert after == before + {p};
        EntriesAdd(list, before, make, p, key);
        list := list + [Tight(p.0, p.1, weights[p])];
      } else {
        assert after == before;
      }
    }
    assert pairs[..|pairs|] == pairs;
    assert AtLeast(weights, Elements(pairs), TIGHT) == PairsFrom(nodes, cross, TIGHT);
    HeavierPairOrders();
    SortedEntries(list, PairsFrom(nodes, cross, TIGHT), make, HeavierPair);
    list := Sorted(list, HeavierPair);
    PairsDescend(list);
  }

  ghost predicate ShowsTight(nodes: map<Id, Node>, cross: set<Edge>, full: seq<Tight>, tight: seq<Tight>) {
    TightList(nodes, cross, full) && |tight| == (if |full| < 30 then |full| else 30) && tight == full[..|tight|]
  }

  method AnalyzeCoupling(nodes: map<Id, Node>, edges: map<Edge, Link>) returns (rows: seq<Coupling>, tight: seq<Tight>)
    ensures CouplingList(nodes, Cross(nodes, edges.Keys), rows)
    ensures exists full :: ShowsTight(nodes, Cross(nodes, edges.Keys), full, tight)
  {
    hide CouplingList, TightList, Source, Target, NestedTallyOf, TallyOf, Cross;
    ghost var cross := Cross(nodes, edges.Keys);
    var counts := CountModuleEdges(nodes, edges);
    var weights := FlattenCounts(counts);
    FlattenedTally(cross, Source(nodes), Target(nodes), weights);
    rows := CouplingTable(weights, nodes, cross);
    var full := TightPairs(weights, nodes, cross);
    tight := if |full| <= SHOWN then full else full[..SHOWN];
    assert full[..|full|] == full;
    assert ShowsTight(nodes, cross, full, tight);
  }
}
