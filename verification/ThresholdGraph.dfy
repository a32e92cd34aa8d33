/**
 The matching graph of the retrieval oracle and its component search
 (scripts/body_qualification_metrics.py, lines 394-413).

 A graph is a finite set of edges (i, j) with i < j over input positions.  Connectedness is defined
 by paths, independently of the search, and the search is proved to return exactly one group per
 connected component.
 */
module ThresholdGraph {
  import opened FiniteSets
  import opened Tables

  type Edge = (int, int)

  ghost predicate Ascending(edges: set<Edge>) {
    forall e :: e in edges ==> e.0 < e.1
  }

  predicate Adjacent(edges: set<Edge>, u: int, v: int) {
    (u, v) in edges || (v, u) in edges
  }

  /** The non-isolated vertices. */
  ghost function Touched(edges: set<Edge>): set<int> {
    (set e | e in edges :: e.0) + (set e | e in edges :: e.1)
  }

  ghost predicate IsPath(edges: set<Edge>, p: seq<int>) {
    p != [] && forall i :: 0 <= i < |p| - 1 ==> Adjacent(edges, p[i], p[i + 1])
  }

  ghost predicate Joins(edges: set<Edge>, p: seq<int>, u: int, v: int) {
    IsPath(edges, p) && p[0] == u && p[|p| - 1] == v
  }

  ghost predicate Connected(edges: set<Edge>, u: int, v: int) {
    exists p :: Joins(edges, p, u, v)
  }

  /** A connected component among the non-isolated vertices. */
  ghost predicate IsComponent(edges: set<Edge>, c: set<int>) {
    c != {} && c <= Touched(edges) &&
    forall u, v {:trigger Connected(edges, u, v)} :: u in c ==> (v in c <==> Connected(edges, u, v))
  }

  /** `groups` lists every component of the graph exactly once. */
  ghost predicate AreComponents(edges: set<Edge>, groups: seq<set<int>>) {
    (forall k :: 0 <= k < |groups| ==> IsComponent(edges, groups[k])) &&
    (forall k, l :: 0 <= k < l < |groups| ==> groups[k] !! groups[l]) &&
    (forall v :: v in Touched(edges) ==> Listed(groups, v))
  }

  ghost predicate Listed(groups: seq<set<int>>, v: int) {
    exists k :: 0 <= k < |groups| && v in groups[k]
  }

  // ----- Paths -----

  lemma ConnectedSelf(edges: set<Edge>, u: int)
    ensures Connected(edges, u, u)
  {
    assert Joins(edges, [u], u, u);
  }

  lemma ConnectedStep(edges: set<Edge>, u: int, v: int, w: int)
    requires Connected(edges, u, v) && Adjacent(edges, v, w)
    ensures Connected(edges, u, w)
  {
    var p :| Joins(edges, p, u, v);
    assert Joins(edges, p + [w], u, w);
  }

  lemma ConnectedSymmetric(edges: set<Edge>, u: int, v: int)
    requires Connected(edges, u, v)
    ensures Connected(edges, v, u)
  {
    var p :| Joins(edges, p, u, v);
    var q := seq(|p|, i requires 0 <= i < |p| => p[|p| - 1 - i]);
    forall i | 0 <= i < |q| - 1 ensures Adjacent(edges, q[i], q[i + 1]) {
      assert Adjacent(edges, p[|p| - 2 - i], p[|p| - 2 - i + 1]);
    }
    assert Joins(edges, q, v, u);
  }

  lemma ConnectedTransitive(edges: set<Edge>, u: int, v: int, w: int)
    requires Connected(edges, u, v) && Connected(edges, v, w)
    ensures Connected(edges, u, w)
  {
    var p :| Joins(edges, p, u, v);
    var q :| Joins(edges, q, v, w);
    var r := p + q[1..];
    forall i | 0 <= i < |r| - 1 ensures Adjacent(edges, r[i], r[i + 1]) {
      if i < |p| - 1 {
        assert Adjacent(edges, p[i], p[i + 1]);
      } else {
        assert Adjacent(edges, q[i - |p| + 1], q[i - |p| + 1 + 1]);
        assert r[i] == q[i - |p| + 1];
      }
    }
    assert Joins(edges, r, u, w);
  }

  /** A set no edge leaves. */
  ghost predicate Closed(edges: set<Edge>, s: set<int>) {
    forall u, v :: u in s && Adjacent(edges, u, v) ==> v in s
  }

  lemma ClosedKeepsConnected(edges: set<Edge>, s: set<int>, u: int, v: int)
    requires Closed(edges, s) && u in s && Connected(edges, u, v)
    ensures v in s
  {
    var p :| Joins(edges, p, u, v);
    for i := 0 to |p| - 1
      invariant p[i] in s
    {
      assert Adjacent(edges, p[i], p[i + 1]);
    }
  }

  lemma TouchedClosed(edges: set<Edge>)
    ensures Closed(edges, Touched(edges))
  {
  }

  lemma TouchedEnds(edges: set<Edge>, e: Edge)
    requires e in edges
    ensures e.0 in Touched(edges) && e.1 in Touched(edges) && Adjacent(edges, e.0, e.1)
  {
  }

  // ----- Components -----

  lemma ComponentClosed(edges: set<Edge>, c: set<int>)
    requires IsComponent(edges, c)
    ensures Closed(edges, c)
  {
    forall u, v | u in c && Adjacent(edges, u, v) ensures v in c {
      ConnectedSelf(edges, u);
      ConnectedStep(edges, u, u, v);
    }
  }

  /** The vertices connected to one touched vertex form a component. */
  lemma ReachSetIsComponent(edges: set<Edge>, root: int, c: set<int>)
    requires root in Touched(edges)
    requires forall v :: v in c <==> Connected(edges, root, v)
    ensures IsComponent(edges, c)
  {
    ConnectedSelf(edges, root);
    forall v | v in c ensures v in Touched(edges) {
      TouchedClosed(edges);
      ClosedKeepsConnected(edges, Touched(edges), root, v);
    }
    forall u, v | u in c ensures v in c <==> Connected(edges, u, v) {
      ConnectedSymmetric(edges, root, u);
      if v in c {
        ConnectedTransitive(edges, u, root, v);
      }
      if Connected(edges, u, v) {
        ConnectedTransitive(edges, root, u, v);
      }
    }
  }

  /** Two components that meet are the same. */
  lemma ComponentsMeet(edges: set<Edge>, c: set<int>, d: set<int>, v: int)
    requires IsComponent(edges, c) && IsComponent(edges, d) && v in c && v in d
    ensures c == d
  {
    forall w ensures w in c <==> w in d {
      assert w in c <==> Connected(edges, v, w);
    }
  }

  /** Every component is one of the groups of a complete listing. */
  lemma ComponentListed(edges: set<Edge>, groups: seq<set<int>>, c: set<int>) returns (k: nat)
    requires AreComponents(edges, groups) && IsComponent(edges, c)
    ensures k < |groups| && groups[k] == c
  {
    var v := Pick(c);
    assert Listed(groups, v);
    var j :| 0 <= j < |groups| && v in groups[j];
    ComponentsMeet(edges, groups[j], c, v);
    k := j;
  }

  lemma ListingDistinct(edges: set<Edge>, groups: seq<set<int>>)
    requires AreComponents(edges, groups)
    ensures Distinct(groups)
  {
    forall k, l | 0 <= k < l < |groups| ensures groups[k] != groups[l] {
      assert groups[k] !! groups[l];
      var v := Pick(groups[k]);
    }
  }

  lemma ListingsShareElements(edges: set<Edge>, a: seq<set<int>>, b: seq<set<int>>)
    requires AreComponents(edges, a) && AreComponents(edges, b)
    ensures Elements(a) == Elements(b)
  {
    forall c ensures c in a <==> c in b {
      if c in a {
        var k := ComponentListed(edges, b, c);
      }
      if c in b {
        var k := ComponentListed(edges, a, c);
      }
    }
  }

  /** The component listing is unique up to order. */
  lemma ListingUnique(edges: set<Edge>, a: seq<set<int>>, b: seq<set<int>>) returns (image: seq<nat>)
    requires AreComponents(edges, a) && AreComponents(edges, b)
    ensures Corresponds(a, b, image)
  {
    ListingDistinct(edges, a);
    ListingDistinct(edges, b);
    ListingsShareElements(edges, a, b);
    image := SameElementsCorrespond(a, b);
  }

  /** Reordering a component listing gives a component listing. */
  lemma ListingReordered(edges: set<Edge>, a: seq<set<int>>, b: seq<set<int>>, image: seq<nat>)
    requires AreComponents(edges, b) && Corresponds(a, b, image)
    ensures AreComponents(edges, a)
  {
    forall k | 0 <= k < |a| ensures IsComponent(edges, a[k]) {
      assert a[k] == b[image[k]];
    }
    forall k, l | 0 <= k < l < |a| ensures a[k] !! a[l] {
      assert image[k] != image[l];
      assert b[image[k]] !! b[image[l]];
    }
    forall v | v in Touched(edges) ensures Listed(a, v) {
      assert Listed(b, v);
      var j :| 0 <= j < |b| && v in b[j];
      assert Hit(image, j);
      var k :| 0 <= k < |image| && image[k] == j;
      assert v in a[k];
    }
  }

  // ----- Edges inside a component -----

  ghost function Within(edges: set<Edge>, c: set<int>): set<Edge> {
    set e | e in edges && e.0 in c && e.1 in c
  }

  /** Every edge lies inside exactly one of the listed components. */
  lemma EdgeInOneComponent(edges: set<Edge>, groups: seq<set<int>>, e: Edge) returns (k: nat)
    requires AreComponents(edges, groups) && e in edges
    ensures k < |groups| && e in Within(edges, groups[k])
    ensures forall l :: 0 <= l < |groups| && l != k ==> e.0 !in groups[l] && e.1 !in groups[l]
  {
    TouchedEnds(edges, e);
    assert Listed(groups, e.0);
    var j :| 0 <= j < |groups| && e.0 in groups[j];
    ComponentClosed(edges, groups[j]);
    k := j;
    forall l | 0 <= l < |groups| && l != k ensures e.0 !in groups[l] && e.1 !in groups[l] {
      assert groups[l] !! groups[k];
    }
  }

  ghost function EdgeCounts(edges: set<Edge>, groups: seq<set<int>>): seq<int> {
    seq(|groups|, k requires 0 <= k < |groups| => |Within(edges, groups[k])|)
  }

  ghost function EdgesOfFirst(edges: set<Edge>, groups: seq<set<int>>, k: int): set<Edge>
    requires k <= |groups|
  {
    set e | e in edges && exists l :: 0 <= l < k && e in Within(edges, groups[l])
  }

  lemma {:induction false} EdgesOfFirstSize(edges: set<Edge>, groups: seq<set<int>>, k: nat)
    requires AreComponents(edges, groups) && k <= |groups|
    ensures |EdgesOfFirst(edges, groups, k)| == Sum(EdgeCounts(edges, groups)[..k])
  {
    var counts := EdgeCounts(edges, groups);
    if k == 0 {
      assert EdgesOfFirst(edges, groups, 0) == {};
    } else {
      EdgesOfFirstSize(edges, groups, k - 1);
      assert counts[..k][..k - 1] == counts[..k - 1];
      var before, own := EdgesOfFirst(edges, groups, k - 1), Within(edges, groups[k - 1]);
      hide AreComponents;
      assert EdgesOfFirst(edges, groups, k) == before + own;
      EdgesOfFirstApart(edges, groups, k);
    }
  }

  lemma EdgesOfFirstApart(edges: set<Edge>, groups: seq<set<int>>, k: nat)
    requires AreComponents(edges, groups) && 1 <= k <= |groups|
    ensures EdgesOfFirst(edges, groups, k - 1) !! Within(edges, groups[k - 1])
  {
    var before := EdgesOfFirst(edges, groups, k - 1);
    forall e | e in before ensures e !in Within(edges, groups[k - 1]) {
      var l :| 0 <= l < k - 1 && e in Within(edges, groups[l]);
      assert groups[l] !! groups[k - 1];
    }
  }

  /** Conservation: the component edge counts add up to the number of matching edges. */
  lemma EdgeConservation(edges: set<Edge>, groups: seq<set<int>>)
    requires AreComponents(edges, groups)
    ensures Sum(EdgeCounts(edges, groups)) == |edges|
  {
    EdgesOfFirstSize(edges, groups, |groups|);
    var counts := EdgeCounts(edges, groups);
    assert counts[..|groups|] == counts;
    forall e | e in edges ensures e in EdgesOfFirst(edges, groups, |groups|) {
      var k := EdgeInOneComponent(edges, groups, e);
    }
    assert EdgesOfFirst(edges, groups, |groups|) == edges;
  }

  /** From inside a component, some edge leaves every proper non-empty part of it. */
  lemma CrossingEdge(edges: set<Edge>, c: set<int>, s: set<int>) returns (u: int, v: int)
    requires IsComponent(edges, c) && s < c && s != {}
    ensures u in s && v in c && v !in s && Adjacent(edges, u, v)
  {
    ComponentClosed(edges, c);
    if Closed(edges, s) {
      var a := Pick(s);
      assert c == s + (c - s);
      var b := Pick(c - s);
      assert Connected(edges, a, b);
      ClosedKeepsConnected(edges, s, a, b);
      assert false;
    }
    var x, y :| x in s && Adjacent(edges, x, y) && y !in s;
    u, v := x, y;
  }

  lemma {:induction false} GrowConnected(edges: set<Edge>, c: set<int>, s: set<int>)
    requires IsComponent(edges, c) && s <= c && s != {}
    requires |Within(edges, s)| >= |s| - 1
    ensures |Within(edges, c)| >= |c| - 1
    decreases |c - s|
  {
    if s != c {
      var u, v := CrossingEdge(edges, c, s);
      var e := if (u, v) in edges then (u, v) else (v, u);
      var t := s + {v};
      assert Within(edges, s) + {e} <= Within(edges, t);
      SubsetSize(Within(edges, s) + {e}, Within(edges, t));
      assert c - t == (c - s) - {v};
      GrowConnected(edges, c, t);
    }
  }

  lemma ComponentHasEdge(edges: set<Edge>, c: set<int>, v: int)
    requires Ascending(edges) && Closed(edges, c) && v in c && v in Touched(edges)
    ensures 2 <= |c|
  {
    var e :| e in edges && (e.0 == v || e.1 == v);
    assert Adjacent(edges, e.0, e.1) && Adjacent(edges, e.1, e.0);
    SubsetSize({e.0, e.1}, c);
  }

  lemma WithinBound(edges: set<Edge>, c: set<int>)
    requires Ascending(edges)
    ensures |Within(edges, c)| <= PairCount(|c|)
  {
    SubsetSize(Within(edges, c), OrderedPairs(c));
    OrderedPairsSize(c);
  }

  /** A component has at least two vertices, at least |c|-1 edges and at most |c|(|c|-1)/2. */
  lemma ComponentEdgeBounds(edges: set<Edge>, c: set<int>)
    requires Ascending(edges) && IsComponent(edges, c)
    ensures 2 <= |c|
    ensures |c| - 1 <= |Within(edges, c)| <= PairCount(|c|)
  {
    hide Within, Touched, Closed;
    var v := Pick(c);
    ComponentClosed(edges, c);
    ComponentHasEdge(edges, c, v);
    GrowConnected(edges, c, {v});
    WithinBound(edges, c);
  }

  // ----- The stack search -----

  /** `neighbors` is the adjacency dictionary of the graph, keyed by its non-isolated vertices. */
  ghost predicate IsAdjacency(edges: set<Edge>, neighbors: map<int, set<int>>) {
    neighbors.Keys == Touched(edges) &&
    forall u, v :: u in neighbors ==> (v in neighbors[u] <==> Adjacent(edges, u, v))
  }

  /** The inner loop: depth-first search from one vertex; vertices may be on the stack repeatedly. */
  method Explore(ghost edges: set<Edge>, neighbors: map<int, set<int>>, root: int) returns (group: set<int>)
    requires IsAdjacency(edges, neighbors) && root in neighbors
    ensures forall v :: v in group <==> Connected(edges, root, v)
  {
    var stack := [root];
    group := {};
    ConnectedSelf(edges, root);
    TouchedClosed(edges);
    while stack != []
      invariant group <= neighbors.Keys
      invariant forall v :: v in group || v in stack ==> v in neighbors && Connected(edges, root, v)
      invariant root in group || root in stack
      invariant forall u, v :: u in group && Adjacent(edges, u, v) ==> v in group || v in stack
      decreases |neighbors.Keys - group|, |stack|
    {
      var item := stack[|stack| - 1];
      ghost var pushed := stack;
      stack := stack[..|stack| - 1];
      assert pushed == stack + [item];
      if item !in group {
        assert neighbors.Keys - (group + {item}) == (neighbors.Keys - group) - {item};
        group := group + {item};
        var next := Listing(neighbors[item] - group);
        forall v | v in next ensures v in neighbors && Connected(edges, root, v) {
          assert v in Elements(next);
          ConnectedStep(edges, root, item, v);
        }
        assert forall v :: v in neighbors[item] ==> v in group || v in next by {
          assert forall v :: v in Elements(next) ==> v in next;
        }
        stack := stack + next;
      }
    }
    forall v | Connected(edges, root, v) ensures v in group {
      ClosedKeepsConnected(edges, group, root, v);
    }
  }

  /** The smallest element, Python's `min`. */
  method Smallest(s: set<int>) returns (m: int)
    requires s != {}
    ensures m in s && forall x :: x in s ==> m <= x
  {
    var list := Listing(s);
    m := list[0];
    for i := 1 to |list|
      invariant m in list && forall x :: x in list[..i] ==> m <= x
    {
      if list[i] < m { m := list[i]; }
      assert list[..i + 1] == list[..i] + [list[i]];
    }
    assert m in Elements(list) && list[..|list|] == list;
    assert forall x :: x in Elements(list) ==> x in list;
  }

  /** The outer loop: peel off the component of the smallest remaining vertex until none is left. */
  method Components(ghost edges: set<Edge>, neighbors: map<int, set<int>>) returns (groups: seq<set<int>>)
    requires IsAdjacency(edges, neighbors)
    ensures AreComponents(edges, groups)
  {
    groups := [];
    var remaining := neighbors.Keys;
    TouchedClosed(edges);
    while remaining != {}
      invariant remaining <= neighbors.Keys
      invariant Closed(edges, remaining)
      invariant forall k :: 0 <= k < |groups| ==> IsComponent(edges, groups[k]) && groups[k] !! remaining
      invariant forall k, l :: 0 <= k < l < |groups| ==> groups[k] !! groups[l]
      invariant forall v :: v in neighbors && v !in remaining ==> Listed(groups, v)
      decreases remaining
    {
      var root := Smallest(remaining);
      var group := Explore(edges, neighbors, root);
      ReachSetIsComponent(edges, root, group);
      ConnectedSelf(edges, root);
      ComponentSplitsClosed(edges, remaining, group, root);
      ghost var before, rest := groups, remaining - group;
      groups := groups + [group];
      forall v | v in neighbors && v !in rest ensures Listed(groups, v) {
        if v in group {
          assert groups[|before|] == group;
        } else {
          assert Listed(before, v);
          var k :| 0 <= k < |before| && v in before[k];
          assert groups[k] == before[k];
        }
      }
      remaining := remaining - group;
    }
  }

  /** Removing the component of a vertex from a closed set leaves a closed set. */
  lemma ComponentSplitsClosed(edges: set<Edge>, s: set<int>, c: set<int>, root: int)
    requires Closed(edges, s) && root in s && root in c && IsComponent(edges, c)
    ensures c <= s && Closed(edges, s - c)
  {
    forall v | v in c ensures v in s {
      assert Connected(edges, root, v);
      ClosedKeepsConnected(edges, s, root, v);
    }
    ComponentClosed(edges, c);
    forall u, v | u in s - c && Adjacent(edges, u, v) ensures v in s - c {
      assert Adjacent(edges, v, u);
    }
  }
}
