/** Dictionaries filled from parallel lists of keys and values, and one-to-one matchings between two of them. */
module Tables {
  import opened FiniteSets

  /** `table` maps the keys, which do not repeat, to the values at the same positions. */
  ghost predicate IsTable<K, V>(keys: seq<K>, values: seq<V>, table: map<K, V>) {
    |keys| == |values| && Distinct(keys) && table.Keys == Elements(keys) &&
    forall k :: 0 <= k < |keys| ==> keys[k] in table && table[keys[k]] == values[k]
  }

  lemma TableExtend<K, V>(keys: seq<K>, values: seq<V>, table: map<K, V>, key: K, value: V)
    requires IsTable(keys, values, table) && key !in table
    ensures IsTable(keys + [key], values + [value], table[key := value])
  {
    ElementsAppend(keys, key);
    forall k | 0 <= k < |keys| ensures keys[k] != key {
      assert keys[k] in Elements(keys);
    }
  }

  lemma TableLookup<K, V>(keys: seq<K>, values: seq<V>, table: map<K, V>, key: K) returns (k: nat)
    requires IsTable(keys, values, table) && key in table
    ensures k < |keys| && keys[k] == key && table[key] == values[k]
  {
    k :| 0 <= k < |keys| && keys[k] == key;
  }

  lemma TableSize<K, V>(keys: seq<K>, values: seq<V>, table: map<K, V>)
    requires IsTable(keys, values, table)
    ensures |table| == |keys|
  {
    DistinctSize(keys);
    assert |table| == |table.Keys|;
  }

  /** A one-to-one correspondence between the positions of two lists of length n. */
  ghost predicate IsBijection(image: seq<nat>, n: nat) {
    |image| == n && (forall k :: 0 <= k < n ==> image[k] < n) && Distinct(image) &&
    forall j :: 0 <= j < n ==> Hit(image, j)
  }

  ghost predicate Hit(image: seq<nat>, j: int) {
    exists k :: 0 <= k < |image| && image[k] == j
  }

  ghost predicate Corresponds<K>(a: seq<K>, b: seq<K>, image: seq<nat>) {
    IsBijection(image, |b|) && |a| == |b| && forall k :: 0 <= k < |a| ==> a[k] == b[image[k]]
  }

  /** Two repetition-free lists with the same elements correspond one to one. */
  lemma SameElementsCorrespond<K>(a: seq<K>, b: seq<K>) returns (image: seq<nat>)
    requires Distinct(a) && Distinct(b) && Elements(a) == Elements(b)
    ensures Corresponds(a, b, image)
  {
    DistinctSize(a);
    DistinctSize(b);
    image := [];
    for k := 0 to |a|
      invariant |image| == k && forall l :: 0 <= l < k ==> image[l] < |b| && b[image[l]] == a[l]
    {
      assert a[k] in Elements(b);
      var j: nat :| j < |b| && b[j] == a[k];
      image := image + [j];
    }
    forall k, l | 0 <= k < l < |image| ensures image[k] != image[l] {
      assert a[k] != a[l];
    }
    forall j | 0 <= j < |b| ensures Hit(image, j) {
      assert b[j] in Elements(a);
      var k :| 0 <= k < |a| && a[k] == b[j];
      assert b[image[k]] == b[j];
    }
  }

  lemma CorrespondSameElements<K>(a: seq<K>, b: seq<K>, image: seq<nat>)
    requires Corresponds(a, b, image)
    ensures Elements(a) == Elements(b)
    ensures Distinct(b) ==> Distinct(a)
  {
    forall x ensures x in a <==> x in b {
      if x in a {
        var k :| 0 <= k < |a| && a[k] == x;
      }
      if x in b {
        var j :| 0 <= j < |b| && b[j] == x;
        assert Hit(image, j);
        var k :| 0 <= k < |image| && image[k] == j;
        assert a[k] == x;
      }
    }
    if Distinct(b) {
      forall k, l | 0 <= k < l < |a| ensures a[k] != a[l] {
        assert image[k] != image[l];
        assert b[image[k]] != b[image[l]];
      }
    }
  }

  /** The two dictionaries have the same keys and near values under them. */
  ghost predicate Agree<K, V>(a: map<K, V>, b: map<K, V>, near: (V, V) -> bool) {
    a.Keys == b.Keys && forall key :: key in b ==> key in a && near(a[key], b[key])
  }

  lemma AgreeSize<K, V>(a: map<K, V>, b: map<K, V>, near: (V, V) -> bool)
    requires Agree(a, b, near)
    ensures |a| == |b|
  {
    assert |a| == |a.Keys| && |b| == |b.Keys|;
  }

  /** Corresponding tables with near values agree. */
  lemma CorrespondingAgree<K, V>(keysA: seq<K>, valuesA: seq<V>, a: map<K, V>,
                                 keysB: seq<K>, valuesB: seq<V>, b: map<K, V>,
                                 near: (V, V) -> bool, image: seq<nat>)
    requires IsTable(keysA, valuesA, a) && IsTable(keysB, valuesB, b) && Corresponds(keysA, keysB, image)
    requires forall k :: 0 <= k < |keysA| ==> near(valuesA[k], valuesB[image[k]])
    ensures Agree(a, b, near)
  {
    CorrespondSameElements(keysA, keysB, image);
    forall key | key in b ensures key in a && near(a[key], b[key]) {
      var j := TableLookup(keysB, valuesB, b, key);
      assert Hit(image, j);
      var k :| 0 <= k < |image| && image[k] == j;
      assert keysA[k] in a;
    }
  }

  /** Agreeing tables correspond one to one, with near values at corresponding positions. */
  lemma AgreeingCorrespond<K, V>(keysA: seq<K>, valuesA: seq<V>, a: map<K, V>,
                                 keysB: seq<K>, valuesB: seq<V>, b: map<K, V>, near: (V, V) -> bool)
    returns (image: seq<nat>)
    requires IsTable(keysA, valuesA, a) && IsTable(keysB, valuesB, b) && Agree(a, b, near)
    ensures Corresponds(keysA, keysB, image)
    ensures forall k :: 0 <= k < |keysA| ==> near(valuesA[k], valuesB[image[k]])
  {
    image := SameElementsCorrespond(keysA, keysB);
    forall k | 0 <= k < |keysA| ensures near(valuesA[k], valuesB[image[k]]) {
      assert keysB[image[k]] in b;
    }
  }
}
