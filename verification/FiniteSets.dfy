/** Cardinality facts about finite sets that the graph, manifest and coverage arguments share. */
module FiniteSets {

  lemma {:induction false} SubsetSize<T>(a: set<T>, b: set<T>)
    requires a <= b
    ensures |a| <= |b|
    ensures |a| == |b| ==> a == b
  {
    if a == {} {
    } else {
      var x :| x in a;
      SubsetSize(a - {x}, b - {x});
      assert a == (a - {x}) + {x} && b == (b - {x}) + {x};
    }
  }

  lemma Pick<T>(s: set<T>) returns (x: T)
    requires s != {}
    ensures x in s
  {
    x :| x in s;
  }

  /** Image of a set under a function. */
  ghost function Image<X, Y>(xs: set<X>, f: X -> Y): set<Y> {
    set x | x in xs :: f(x)
  }

  lemma {:induction false} InjectiveImageSize<X, Y>(xs: set<X>, f: X -> Y)
    requires forall x, x' :: x in xs && x' in xs && f(x) == f(x') ==> x == x'
    ensures |Image(xs, f)| == |xs|
  {
    if xs == {} {
    } else {
      var x :| x in xs;
      InjectiveImageSize(xs - {x}, f);
      assert Image(xs, f) == Image(xs - {x}, f) + {f(x)};
      assert f(x) !in Image(xs - {x}, f);
    }
  }

  /** The two-element subsets of a set: the unordered pairs of distinct elements. */
  ghost function TwoSubsets<T>(s: set<T>): set<set<T>> {
    set x, y | x in s && y in s && x != y :: {x, y}
  }

  lemma TwoSubsetEnds<T>(s: set<T>, p: set<T>) returns (u: T, v: T)
    requires p in TwoSubsets(s)
    ensures u in s && v in s && u != v && p == {u, v}
  {
    u, v :| u in s && v in s && u != v && p == {u, v};
  }

  /** The number of unordered pairs of distinct elements of an n-element set. */
  function PairCount(n: nat): nat {
    if n == 0 then 0 else PairCount(n - 1) + n - 1
  }

  lemma {:induction false} PairCountClosed(n: nat)
    ensures PairCount(n) == n * (n - 1) / 2
  {
    if n > 0 {
      PairCountClosed(n - 1);
      assert n * (n - 1) == (n - 1) * (n - 2) + 2 * (n - 1);
    }
  }

  lemma {:induction false} PairCountMonotone(a: nat, b: nat)
    requires a <= b
    ensures PairCount(a) <= PairCount(b)
  {
    if a < b {
      PairCountMonotone(a, b - 1);
    }
  }

  /** There are s(s-1)/2 unordered pairs of distinct elements. */
  lemma {:induction false} TwoSubsetsSize<T>(s: set<T>)
    ensures |TwoSubsets(s)| == PairCount(|s|)
  {
    if s == {} {
      assert TwoSubsets(s) == {};
    } else {
      var x :| x in s;
      var rest := s - {x};
      TwoSubsetsSize(rest);
      var star := Image(rest, (y: T) => {x, y});
      forall y, y' | y in rest && y' in rest && {x, y} == {x, y'} ensures y == y' {
        assert y in {x, y'};
      }
      InjectiveImageSize(rest, (y: T) => {x, y});
      assert TwoSubsets(s) == TwoSubsets(rest) + star by {
        forall p | p in TwoSubsets(s) ensures p in TwoSubsets(rest) + star {
          var u, v := TwoSubsetEnds(s, p);
          if u == x {
            assert p == ((y: T) => {x, y})(v) && v in rest;
          } else if v == x {
            assert p == ((y: T) => {x, y})(u) && u in rest;
          }
        }
        forall p | p in star ensures p in TwoSubsets(s) {
          var y :| y in rest && p == {x, y};
        }
      }
      assert TwoSubsets(rest) !! star;
      assert |s| == |rest| + 1;
    }
  }

  /** The pairs (i, j) with i < j over a set of integers, as `itertools.combinations` lists them. */
  ghost function OrderedPairs(s: set<int>): set<(int, int)> {
    set i, j | i in s && j in s && i < j :: (i, j)
  }

  lemma OrderedPairsSize(s: set<int>)
    ensures |OrderedPairs(s)| == PairCount(|s|)
  {
    var f := (e: (int, int)) => {e.0, e.1};
    var pairs := OrderedPairs(s);
    forall a, b | a in pairs && b in pairs && f(a) == f(b) ensures a == b {
      assert a.0 in f(b) && a.1 in f(b) && b.0 in f(a);
    }
    InjectiveImageSize(pairs, f);
    assert Image(pairs, f) == TwoSubsets(s) by {
      forall p | p in TwoSubsets(s) ensures p in Image(pairs, f) {
        var u, v := TwoSubsetEnds(s, p);
        var e := if u < v then (u, v) else (v, u);
        assert e in pairs && f(e) == p;
      }
    }
    TwoSubsetsSize(s);
  }

  /** The distinct elements of a list, Python's `set(list)`. */
  function Elements<T>(s: seq<T>): set<T> {
    set x | x in s
  }

  lemma ElementsAppend<T>(s: seq<T>, x: T)
    ensures Elements(s + [x]) == Elements(s) + {x}
  {
    assert forall y :: y in s + [x] <==> y in s || y == x;
  }

  ghost predicate Distinct<T>(s: seq<T>) {
    forall i, j :: 0 <= i < j < |s| ==> s[i] != s[j]
  }

  /** `len(set(s)) == len(s)` is exactly the absence of repetitions. */
  lemma {:induction false} DistinctSize<T>(s: seq<T>)
    ensures |Elements(s)| <= |s|
    ensures |Elements(s)| == |s| <==> Distinct(s)
  {
    if s == [] {
    } else {
      var front, last := s[..|s| - 1], s[|s| - 1];
      DistinctSize(front);
      assert s == front + [last];
      ElementsAppend(front, last);
      if last in front {
        assert Elements(s) == Elements(front);
      } else {
        assert last !in Elements(front);
      }
      assert Distinct(s) <==> Distinct(front) && last !in front;
    }
  }

  /** A list holding the elements of a set once each, in an order the caller cannot rely on. */
  method Listing<T(==)>(s: set<T>) returns (list: seq<T>)
    ensures Elements(list) == s && Distinct(list)
    ensures |list| == |s|
  {
    list := [];
    var rest := s;
    while rest != {}
      invariant rest <= s && Elements(list) == s - rest && Distinct(list)
      decreases rest
    {
      var x :| x in rest;
      assert x !in Elements(list);
      ElementsAppend(list, x);
      rest := rest - {x};
      list := list + [x];
    }
    DistinctSize(list);
  }

  lemma {:induction false} RangeSize(c: set<int>, n: nat)
    requires forall i :: i in c ==> 0 <= i < n
    ensures |c| <= n
  {
    if c != {} {
      if n == 0 {
        var i := Pick(c);
        assert false;
      }
      RangeSize(c - {n - 1}, n - 1);
    }
  }

  function Sum(s: seq<int>): int {
    if s == [] then 0 else Sum(s[..|s| - 1]) + s[|s| - 1]
  }
}
