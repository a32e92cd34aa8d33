/** Counting the elements of a set by a key: dictionaries of counters, and sums over the classes of a key. */
module Counting {
  import opened FiniteSets

  /** The elements with one key. */
  ghost function Fiber<E, K>(s: set<E>, f: E -> K, k: K): set<E> {
    set e | e in s && f(e) == k
  }

  ghost function Over<E, K>(s: set<E>, f: E -> K, ks: set<K>): set<E> {
    set e | e in s && f(e) in ks
  }

  /** The finished counter: each key that occurs, with the number of its elements. */
  ghost function TallyOf<E, K>(s: set<E>, f: E -> K): map<K, nat> {
    map k | k in Image(s, f) :: |Fiber(s, f, k)|
  }

  ghost function NestedTallyOf<E, A, B>(s: set<E>, f: E -> A, g: E -> B): map<A, map<B, nat>> {
    map a | a in Image(s, f) :: TallyOf(Fiber(s, f, a), g)
  }

  function Both<E, A, B>(f: E -> A, g: E -> B): E -> (A, B) {
    (e: E) => (f(e), g(e))
  }

  /** `counter[k] += 1` on a counter that starts every key at zero. */
  function Bump<K>(t: map<K, nat>, k: K): map<K, nat> {
    t[k := (if k in t then t[k] else 0) + 1]
  }

  /** `counters[a][b] += 1`. */
  function BumpIn<A, B>(t: map<A, map<B, nat>>, a: A, b: B): map<A, map<B, nat>> {
    t[a := Bump(if a in t then t[a] else map[], b)]
  }

  lemma ImageAdd<E, K>(s: set<E>, f: E -> K, e: E)
    ensures Image(s + {e}, f) == Image(s, f) + {f(e)}
  {
    assert e in s + {e};
  }

  lemma FiberAdd<E, K>(s: set<E>, f: E -> K, e: E, k: K)
    ensures Fiber(s + {e}, f, k) == if f(e) == k then Fiber(s, f, k) + {e} else Fiber(s, f, k)
  {
  }

  lemma FiberEmpty<E, K>(s: set<E>, f: E -> K, k: K)
    ensures Fiber(s, f, k) == {} <==> k !in Image(s, f)
  {
    if k in Image(s, f) {
      var e :| e in s && f(e) == k;
      assert e in Fiber(s, f, k);
    }
    if Fiber(s, f, k) != {} {
      var e := Pick(Fiber(s, f, k));
      assert f(e) in Image(s, f);
    }
  }

  lemma BumpTallies<E, K>(s: set<E>, f: E -> K, e: E)
    requires e !in s
    ensures Bump(TallyOf(s, f), f(e)) == TallyOf(s + {e}, f)
  {
    ImageAdd(s, f, e);
    FiberEmpty(s, f, f(e));
    forall k | k in Image(s + {e}, f) ensures Bump(TallyOf(s, f), f(e))[k] == |Fiber(s + {e}, f, k)| {
      FiberAdd(s, f, e, k);
    }
  }

  lemma BumpInTallies<E, A, B>(s: set<E>, f: E -> A, g: E -> B, e: E)
    requires e !in s
    ensures BumpIn(NestedTallyOf(s, f, g), f(e), g(e)) == NestedTallyOf(s + {e}, f, g)
  {
    ImageAdd(s, f, e);
    FiberEmpty(s, f, f(e));
    var t, t' := NestedTallyOf(s, f, g), NestedTallyOf(s + {e}, f, g);
    var cell := Fiber(s, f, f(e));
    assert TallyOf<E, B>({}, g) == map[];
    BumpTallies(cell, g, e);
    forall a | a in t' ensures BumpIn(t, f(e), g(e))[a] == t'[a] {
      FiberAdd(s, f, e, a);
    }
  }

  /** Counting by two keys in turn is counting by the pair of them. */
  lemma NestedCell<E, A, B>(s: set<E>, f: E -> A, g: E -> B, a: A, b: B)
    ensures Fiber(Fiber(s, f, a), g, b) == Fiber(s, Both(f, g), (a, b))
    ensures Fiber(Fiber(s, g, b), f, a) == Fiber(s, Both(f, g), (a, b))
    ensures a in Image(s, f) && b in Image(Fiber(s, f, a), g) <==> (a, b) in Image(s, Both(f, g))
  {
    FiberEmpty(s, f, a);
    FiberEmpty(Fiber(s, f, a), g, b);
    FiberEmpty(s, Both(f, g), (a, b));
  }

  lemma OverAdd<E, K>(s: set<E>, f: E -> K, ks: set<K>, k: K)
    requires k !in ks
    ensures |Over(s, f, ks + {k})| == |Over(s, f, ks)| + |Fiber(s, f, k)|
  {
    assert Over(s, f, ks + {k}) == Over(s, f, ks) + Fiber(s, f, k);
    assert Over(s, f, ks) !! Fiber(s, f, k);
  }

  /** The classes of distinct keys are disjoint, so their sizes add up to the size of their union. */
  lemma {:induction false} PartitionSum<E, K>(s: set<E>, f: E -> K, ks: seq<K>, counts: seq<int>)
    requires Distinct(ks) && |counts| == |ks|
    requires forall i :: 0 <= i < |ks| ==> counts[i] == |Fiber(s, f, ks[i])|
    ensures Sum(counts) == |Over(s, f, Elements(ks))|
  {
    if ks == [] {
      assert Over(s, f, Elements(ks)) == {};
    } else {
      var front, last := ks[..|ks| - 1], ks[|ks| - 1];
      PartitionSum(s, f, front, counts[..|ks| - 1]);
      assert ks == front + [last];
      ElementsAppend(front, last);
      OverAdd(s, f, Elements(front), last);
    }
  }

  lemma PartitionAll<E, K>(s: set<E>, f: E -> K, ks: seq<K>, counts: seq<int>)
    requires Distinct(ks) && |counts| == |ks| && Image(s, f) <= Elements(ks)
    requires forall i :: 0 <= i < |ks| ==> counts[i] == |Fiber(s, f, ks[i])|
    ensures Sum(counts) == |s|
  {
    PartitionSum(s, f, ks, counts);
    assert Over(s, f, Elements(ks)) == s by {
      forall e | e in s ensures f(e) in Elements(ks) {
        assert f(e) in Image(s, f);
      }
    }
  }

  /** A list made from keys by `make`, one entry for each key of ks. */
  ghost predicate Entries<K, T>(list: seq<T>, ks: set<K>, make: K -> T) {
    Distinct(list) && Elements(list) == Image(ks, make)
  }

  lemma EntriesAdd<K, T>(list: seq<T>, ks: set<K>, make: K -> T, k: K, key: T -> K)
    requires Entries(list, ks, make) && k !in ks && forall l :: l in ks + {k} ==> key(make(l)) == l
    ensures Entries(list + [make(k)], ks + {k}, make)
  {
    ElementsAppend(list, make(k));
    ImageAdd(ks, make, k);
    forall i | 0 <= i < |list| ensures list[i] != make(k) {
      assert list[i] in Elements(list);
      var l :| l in ks && make(l) == list[i];
      assert key(make(l)) == l;
    }
  }

  lemma EntryKey<K, T>(list: seq<T>, ks: set<K>, make: K -> T, key: T -> K, i: nat)
    requires Entries(list, ks, make) && i < |list| && forall l :: l in ks ==> key(make(l)) == l
    ensures key(list[i]) in ks && make(key(list[i])) == list[i]
  {
    assert list[i] in Elements(list);
    var l :| l in ks && make(l) == list[i];
    assert key(make(l)) == l;
  }

  ghost function Keys<K, T>(list: seq<T>, key: T -> K): seq<K> {
    seq(|list|, (i: int) requires 0 <= i < |list| => key(list[i]))
  }

  /** The keys of the entries, without repetition, are the keys the list was made from. */
  lemma EntryKeys<K, T>(list: seq<T>, ks: set<K>, make: K -> T, key: T -> K)
    requires Entries(list, ks, make) && forall l :: l in ks ==> key(make(l)) == l
    ensures Distinct(Keys(list, key)) && Elements(Keys(list, key)) == ks
  {
    var keys := Keys(list, key);
    forall i | 0 <= i < |list| ensures keys[i] in ks && make(keys[i]) == list[i] {
      EntryKey(list, ks, make, key, i);
    }
    forall k | k in ks ensures k in keys {
      assert make(k) in Image(ks, make);
      assert make(k) in list;
      var i :| 0 <= i < |list| && list[i] == make(k);
      assert keys[i] == key(make(k));
    }
  }
}
