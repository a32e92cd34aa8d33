/** What a list comprehension with a condition returns: the elements at the chosen positions, in order. */
module Selections {
  import opened FiniteSets
  import opened Sorting

  /** The members of a set of integers in ascending order. */
  ghost predicate Enumerates(ks: seq<int>, s: set<int>) {
    (forall i, j :: 0 <= i < j < |ks| ==> ks[i] < ks[j]) && Elements(ks) == s
  }

  /** The elements of the source at the positions in s, in order. */
  ghost predicate Selects<T(!new)>(source: seq<T>, s: set<int>, picked: seq<T>) {
    exists ks :: Enumerates(ks, s) && PicksAt(source, ks, picked)
  }

  ghost predicate PicksAt<T>(source: seq<T>, ks: seq<int>, picked: seq<T>) {
    |picked| == |ks| && forall j :: 0 <= j < |ks| ==> 0 <= ks[j] < |source| && picked[j] == source[ks[j]]
  }

  predicate AtMost(x: int, y: int) {
    x <= y
  }

  lemma EnumerationUnique(a: seq<int>, b: seq<int>, s: set<int>)
    requires Enumerates(a, s) && Enumerates(b, s)
    ensures a == b
  {
    assert forall x :: x in a <==> x in Elements(a);
    assert forall x :: x in b <==> x in Elements(b);
    assert Distinct(a) && Distinct(b);
    DistinctPermutation(a, b);
    assert Ordered(a, AtMost) && Ordered(b, AtMost);
    OrderedUnique(a, b, AtMost);
  }

  /** So there is only one selection. */
  lemma SelectionUnique<T(!new)>(source: seq<T>, s: set<int>, x: seq<T>, y: seq<T>)
    requires Selects(source, s, x) && Selects(source, s, y)
    ensures x == y
  {
    var a :| Enumerates(a, s) && PicksAt(source, a, x);
    var b :| Enumerates(b, s) && PicksAt(source, b, y);
    EnumerationUnique(a, b, s);
  }

  lemma SelectNone<T(!new)>(source: seq<T>)
    ensures Selects(source, {}, [])
  {
    var ks: seq<int> := [];
    assert Enumerates(ks, {}) && PicksAt(source, ks, []);
  }

  lemma EnumerateMore(ks: seq<int>, s: set<int>, k: int)
    requires Enumerates(ks, s) && forall i :: i in s ==> i < k
    ensures Enumerates(ks + [k], s + {k})
  {
    ElementsAppend(ks, k);
    forall i | 0 <= i < |ks| ensures ks[i] < k {
      assert ks[i] in Elements(ks);
    }
  }

  lemma SelectMore<T(!new)>(source: seq<T>, s: set<int>, picked: seq<T>, k: nat)
    requires Selects(source, s, picked) && k < |source| && forall i :: i in s ==> i < k
    ensures Selects(source, s + {k}, picked + [source[k]])
  {
    var ks :| Enumerates(ks, s) && PicksAt(source, ks, picked);
    EnumerateMore(ks, s, k);
    assert PicksAt(source, ks + [k], picked + [source[k]]);
  }

  /** Positions below n select the same from the first n elements. */
  lemma SelectLonger<T(!new)>(source: seq<T>, n: nat, s: set<int>, picked: seq<T>)
    requires n <= |source| && Selects(source[..n], s, picked)
    ensures Selects(source, s, picked)
  {
    var ks :| Enumerates(ks, s) && PicksAt(source[..n], ks, picked);
    assert PicksAt(source, ks, picked);
  }

  lemma SelectAll<T(!new)>(source: seq<T>, s: set<int>)
    requires forall k :: k in s <==> 0 <= k < |source|
    ensures Selects(source, s, source)
  {
    var ks: seq<int> := seq(|source|, (k: int) => k);
    forall k ensures k in ks <==> 0 <= k < |source| {
      if 0 <= k < |source| {
        assert ks[k] == k;
      }
    }
    assert Enumerates(ks, s) && PicksAt(source, ks, source);
  }
}
