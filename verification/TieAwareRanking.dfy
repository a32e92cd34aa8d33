/**
 Precision at every review budget with expected tie order
 (`_summary`, scripts/benchmark_callee_context.py, lines 325-359).

 The script's closed form is compared with the definition it stands for: the average, over all orderings
 of the scored rows by descending score, of the number of positives among the first k.
 */
module TieAwareRanking {
  import opened FiniteSets
  import opened Sorting
  import opened RealProducts

  /** A scored and labelled row; `id` is its position in the input. */
  datatype Row = Row(id: int, score: real, positive: bool, exact: bool)

  predicate AtLeast(a: Row, b: Row) {
    a.score >= b.score
  }

  ghost predicate Descending(rows: seq<Row>) {
    forall i, j :: 0 <= i < j < |rows| ==> rows[i].score >= rows[j].score
  }

  /** One of the orderings the average is taken over. */
  ghost predicate IsOrdering(rows: seq<Row>, o: seq<Row>) {
    multiset(o) == multiset(rows) && Descending(o)
  }

  function Positives(rows: seq<Row>): nat {
    if rows == [] then 0 else (if rows[0].positive then 1 else 0) + Positives(rows[1..])
  }

  /** Positives among the first k rows. */
  ghost function Hits(o: seq<Row>, k: nat): nat {
    if k == 0 || o == [] then 0 else (if o[0].positive then 1 else 0) + Hits(o[1..], k - 1)
  }

  /** The length of the leading group of equal scores. */
  function TopSize(rows: seq<Row>): (g: nat)
    ensures g <= |rows| && (rows != [] ==> g >= 1)
    ensures forall i :: 0 <= i < g ==> rows[i].score == rows[0].score
    ensures g < |rows| ==> rows[g].score != rows[0].score
  {
    if rows == [] then 0 else Leading(rows, rows[0].score)
  }

  function Leading(rows: seq<Row>, score: real): (g: nat)
    ensures g <= |rows| && (forall i :: 0 <= i < g ==> rows[i].score == score) &&
      (g < |rows| ==> rows[g].score != score)
    ensures rows != [] && rows[0].score == score ==> g >= 1
  {
    if rows == [] || rows[0].score != score then 0 else 1 + Leading(rows[1..], score)
  }

  /** The expected number of positives among the first k of rows sorted by descending score. */
  ghost function Expected(rows: seq<Row>, k: nat): real
    requires k <= |rows|
    decreases |rows|
  {
    if rows == [] then 0.0
    else
      var g, p := TopSize(rows), Positives(rows[..TopSize(rows)]);
      if k <= g then Share(k, p, g) else p as real + Expected(rows[g..], k - g)
  }

  /** The expected number of positives in k draws from a group of g rows with p positives. */
  ghost function Share(k: nat, p: nat, g: nat): real
    requires g >= 1
  {
    k as real * p as real / g as real
  }

  function Remove(rows: seq<Row>, i: nat): seq<Row>
    requires i < |rows|
  {
    rows[..i] + rows[i + 1..]
  }

  // ----- All orderings -----

  ghost function Prepend(x: Row, list: seq<seq<Row>>): (r: seq<seq<Row>>)
    ensures |r| == |list|
    ensures forall j :: 0 <= j < |list| ==> r[j] == [x] + list[j]
  {
    if list == [] then [] else [[x] + list[0]] + Prepend(x, list[1..])
  }

  /** The orderings that begin with one of the first n rows. */
  ghost function OrdersFrom(rows: seq<Row>, n: nat): seq<seq<Row>>
    requires n <= |rows|
    decreases |rows|, n
  {
    if n == 0 then []
    else OrdersFrom(rows, n - 1) + Prepend(rows[n - 1], Orders(Remove(rows, n - 1)))
  }

  /** All orderings of rows already sorted by descending score: begin with any row of the leading group. */
  ghost function Orders(rows: seq<Row>): seq<seq<Row>>
    decreases |rows|, |rows| + 1
  {
    if rows == [] then [[]] else OrdersFrom(rows, TopSize(rows))
  }

  ghost function TotalHits(list: seq<seq<Row>>, k: nat): nat {
    if list == [] then 0 else Hits(list[0], k) + TotalHits(list[1..], k)
  }

  // ----- How many orderings there are -----

  ghost predicate SameScores(a: seq<Row>, b: seq<Row>) {
    |a| == |b| && forall i :: 0 <= i < |a| ==> a[i].score == b[i].score
  }

  lemma SameTop(a: seq<Row>, b: seq<Row>)
    requires SameScores(a, b)
    ensures TopSize(a) == TopSize(b)
  {
  }

  /** The number of orderings depends on the scores only. */
  lemma {:induction false} SameCount(a: seq<Row>, b: seq<Row>)
    requires SameScores(a, b)
    ensures |Orders(a)| == |Orders(b)|
    decreases |a|, |a| + 1
  {
    if a != [] {
      SameTop(a, b);
      SameCountFrom(a, b, TopSize(a));
    }
  }

  lemma {:induction false} SameCountFrom(a: seq<Row>, b: seq<Row>, n: nat)
    requires SameScores(a, b) && n <= |a|
    ensures |OrdersFrom(a, n)| == |OrdersFrom(b, n)|
    decreases |a|, n
  {
    if n > 0 {
      SameCountFrom(a, b, n - 1);
      SameCount(Remove(a, n - 1), Remove(b, n - 1));
    }
  }

  /** Whichever row of the leading group comes first, the number of continuations is the same. */
  lemma ContinuationCount(rows: seq<Row>, i: nat)
    requires i < TopSize(rows)
    ensures |Orders(Remove(rows, i))| == |Orders(rows[1..])|
  {
    SameCount(Remove(rows, i), rows[1..]);
  }

  lemma {:induction false} CountFrom(rows: seq<Row>, n: nat)
    requires rows != [] && n <= TopSize(rows)
    ensures |OrdersFrom(rows, n)| == n * |Orders(rows[1..])|
  {
    if n > 0 {
      hide Orders;
      var c := |Orders(rows[1..])|;
      CountFrom(rows, n - 1);
      ContinuationCount(rows, n - 1);
      assert |OrdersFrom(rows, n)| == |OrdersFrom(rows, n - 1)| + c;
      MulStep(n, c);
    }
  }

  lemma MulStep(n: nat, c: int)
    requires n > 0
    ensures n * c == (n - 1) * c + c
  {
  }

  // ----- Adding up hits -----

  lemma {:induction false} TotalHitsConcat(a: seq<seq<Row>>, b: seq<seq<Row>>, k: nat)
    ensures TotalHits(a + b, k) == TotalHits(a, k) + TotalHits(b, k)
  {
    if a == [] {
      assert a + b == b;
    } else {
      TotalHitsConcat(a[1..], b, k);
      assert (a + b)[1..] == a[1..] + b;
    }
  }

  lemma {:induction false} TotalHitsPrepend(x: Row, list: seq<seq<Row>>, k: nat)
    requires k > 0
    ensures TotalHits(Prepend(x, list), k) == |list| * (if x.positive then 1 else 0) + TotalHits(list, k - 1)
  {
    if list != [] {
      TotalHitsPrepend(x, list[1..], k);
      var first := [x] + list[0];
      assert first[1..] == list[0];
    }
  }

  lemma {:induction false} PositivesConcat(a: seq<Row>, b: seq<Row>)
    ensures Positives(a + b) == Positives(a) + Positives(b)
  {
    if a == [] {
      assert a + b == b;
    } else {
      PositivesConcat(a[1..], b);
      assert (a + b)[1..] == a[1..] + b;
    }
  }

  lemma {:induction false} PositivesBound(rows: seq<Row>)
    ensures Positives(rows) <= |rows|
  {
    if rows != [] {
      PositivesBound(rows[1..]);
    }
  }

  function Weight(x: Row): nat {
    if x.positive then 1 else 0
  }

  lemma PositivesRemove(rows: seq<Row>, i: nat)
    requires i < |rows|
    ensures Positives(Remove(rows, i)) == Positives(rows) - Weight(rows[i])
  {
    PositivesConcat(rows[..i], rows[i + 1..]);
    PositivesConcat(rows[..i], [rows[i]] + rows[i + 1..]);
    assert rows == rows[..i] + ([rows[i]] + rows[i + 1..]);
    assert ([rows[i]] + rows[i + 1..])[1..] == rows[i + 1..];
  }

  // ----- The expectation after the first row is drawn -----

  lemma ExpectedZero(rows: seq<Row>)
    ensures Expected(rows, 0) == 0.0
  {
  }

  lemma RemoveTop(rows: seq<Row>, i: nat)
    requires i < TopSize(rows) && TopSize(rows) >= 2
    ensures var g := TopSize(rows);
      TopSize(Remove(rows, i)) == g - 1 && Remove(rows, i)[..g - 1] == Remove(rows[..g], i) &&
      Remove(rows, i)[g - 1..] == rows[g..]
  {
    var g, r := TopSize(rows), Remove(rows, i);
    forall j | 0 <= j < g - 1 ensures r[j].score == rows[0].score {
      assert r[j] == if j < i then rows[j] else rows[j + 1];
    }
    assert g - 1 < |r| ==> r[g - 1] == rows[g];
    TopUnique(r, g - 1);
  }

  lemma TopUnique(rows: seq<Row>, g: nat)
    requires 1 <= g <= |rows| && (forall i :: 0 <= i < g ==> rows[i].score == rows[0].score)
    requires g < |rows| ==> rows[g].score != rows[0].score
    ensures TopSize(rows) == g
  {
  }

  /** The slope and offset of the conditional expectation, the same for every row of the leading group. */
  ghost function Slope(rows: seq<Row>, k: nat): real
    requires 1 <= k <= |rows|
  {
    var g := TopSize(rows);
    if k <= g && g >= 2 then Ratio(k - 1, g - 1) else 1.0
  }

  ghost function Ratio(a: nat, b: nat): real
    requires b >= 1
  {
    a as real / b as real
  }

  lemma ShareRatio(k: nat, p: nat, g: nat)
    requires g >= 1
    ensures Share(k, p, g) == Ratio(k, g) * p as real
  {
  }

  ghost function Offset(rows: seq<Row>, k: nat): real
    requires 1 <= k <= |rows|
  {
    var g := TopSize(rows);
    if k <= g && g >= 2 then 0.0 else Expected(rows[g..], k - g)
  }

  ghost function TopPositives(rows: seq<Row>): real {
    Positives(rows[..TopSize(rows)]) as real
  }

  lemma ExpectedRemoveInside(rows: seq<Row>, i: nat, k: nat)
    requires i < TopSize(rows) && 1 <= k <= TopSize(rows) && TopSize(rows) >= 2
    ensures Expected(Remove(rows, i), k - 1) == Slope(rows, k) * (TopPositives(rows) - Weight(rows[i]) as real)
  {
    hide Share, Ratio;
    var g := TopSize(rows);
    RemoveTop(rows, i);
    PositivesRemove(rows[..g], i);
    assert rows[..g][i] == rows[i];
    ShareRatio(k - 1, Positives(rows[..g]) - Weight(rows[i]), g - 1);
  }

  lemma ExpectedRemoveBeyond(rows: seq<Row>, i: nat, k: nat)
    requires i < TopSize(rows) && TopSize(rows) < k <= |rows|
    ensures Expected(Remove(rows, i), k - 1) ==
            TopPositives(rows) - Weight(rows[i]) as real + Expected(rows[TopSize(rows)..], k - TopSize(rows))
  {
    hide Share, Expected, Positives;
    var g := TopSize(rows);
    if g >= 2 {
      RemoveTop(rows, i);
      PositivesRemove(rows[..g], i);
      assert rows[..g][i] == rows[i];
      BeyondTop(Remove(rows, i), k - 1);
    } else {
      SingleTop(rows, i);
    }
  }

  lemma BeyondTop(rows: seq<Row>, k: nat)
    requires rows != [] && TopSize(rows) < k <= |rows|
    ensures Expected(rows, k) ==
      Positives(rows[..TopSize(rows)]) as real + Expected(rows[TopSize(rows)..], k - TopSize(rows))
  {
    hide Share;
  }

  lemma SingleTop(rows: seq<Row>, i: nat)
    requires i < TopSize(rows) && TopSize(rows) == 1
    ensures Remove(rows, i) == rows[1..] && TopPositives(rows) == Weight(rows[i]) as real
  {
    assert rows[..1][1..] == [];
    assert Positives(rows[..1]) == Weight(rows[0]);
  }

  lemma ExpectedRemove(rows: seq<Row>, i: nat, k: nat)
    requires i < TopSize(rows) && 1 <= k <= |rows|
    ensures Expected(Remove(rows, i), k - 1) ==
            Slope(rows, k) * (TopPositives(rows) - Weight(rows[i]) as real) + Offset(rows, k)
  {
    hide Expected, TopPositives;
    var g := TopSize(rows);
    if k > g {
      ExpectedRemoveBeyond(rows, i, k);
    } else if g >= 2 {
      ExpectedRemoveInside(rows, i, k);
    } else {
      SingleTop(rows, i);
      ExpectedZero(rows[1..]);
    }
  }

  // ----- The average -----

  /** Over all orderings, the first k rows contain `Expected(rows, k)` positives per ordering. */
  ghost predicate Averages(rows: seq<Row>, k: nat)
    requires k <= |rows|
  {
    TotalHits(Orders(rows), k) as real == |Orders(rows)| as real * Expected(rows, k)
  }

  /** The hits of n choices of first row with q positives among them, c continuations each. */
  ghost function Partial(c: real, p: real, q: real, n: real, slope: real, offset: real): real {
    c * q + c * (slope * (n * p - q)) + c * offset * n
  }

  /** The hits of one choice of first row of weight w. */
  ghost function Single(c: real, p: real, w: real, slope: real, offset: real): real {
    c * w + c * (slope * (p - w) + offset)
  }

  lemma PartialZero(c: real, p: real, slope: real, offset: real)
    ensures Partial(c, p, 0.0, 0.0, slope, offset) == 0.0
  {
  }

  lemma PartialStep(c: real, p: real, q: real, w: real, n: real, slope: real, offset: real)
    ensures Partial(c, p, q, n - 1.0, slope, offset) + Single(c, p, w, slope, offset) ==
      Partial(c, p, q + w, n, slope, offset)
  {
  }

  /** The hits of the orderings that begin with one particular row of the leading group. */
  lemma FirstRowTotal(rows: seq<Row>, i: nat, k: nat)
    requires i < TopSize(rows) && 1 <= k <= |rows| && Averages(Remove(rows, i), k - 1)
    ensures TotalHits(Prepend(rows[i], Orders(Remove(rows, i))), k) as real ==
            Single(|Orders(rows[1..])| as real, TopPositives(rows), Weight(rows[i]) as real, Slope(rows, k),
              Offset(rows, k))
  {
    hide Expected, Slope, Offset, TopPositives, Orders, TotalHits, Single;
    var tail := Orders(Remove(rows, i));
    TotalHitsPrepend(rows[i], tail, k);
    ContinuationCount(rows, i);
    ExpectedRemove(rows, i, k);
    SingleFrom(|tail|, Weight(rows[i]), TotalHits(tail, k - 1), Expected(Remove(rows, i), k - 1),
               TopPositives(rows), Slope(rows, k), Offset(rows, k));
  }

  lemma SingleFrom(c: nat, w: nat, hits: nat, e: real, p: real, slope: real, offset: real)
    requires hits as real == c as real * e && e == slope * (p - w as real) + offset
    ensures (c * w + hits) as real == Single(c as real, p, w as real, slope, offset)
  {
    WeightProduct(c, w);
  }

  lemma WeightProduct(c: nat, w: nat)
    ensures (c * w) as real == c as real * w as real
  {
  }

  /** Contribution of the orderings that begin with one of the first n rows of the leading group. */
  lemma {:induction false} TotalFrom(rows: seq<Row>, n: nat, k: nat)
    requires rows != [] && n <= TopSize(rows) && 1 <= k <= |rows|
    ensures TotalHits(OrdersFrom(rows, n), k) as real ==
            Partial(|Orders(rows[1..])| as real, TopPositives(rows), Positives(rows[..n]) as real, n as real,
                    Slope(rows, k), Offset(rows, k))
    decreases |rows|, n
  {
    hide Partial, Single, Averages, Expected, Slope, Offset, TopPositives, Orders, Positives;
    var c, p := |Orders(rows[1..])| as real, TopPositives(rows);
    if n == 0 {
      NonePositive(rows);
      PartialZero(c, p, Slope(rows, k), Offset(rows, k));
    } else {
      var x, tail := rows[n - 1], Orders(Remove(rows, n - 1));
      TotalFrom(rows, n - 1, k);
      TotalHitsConcat(OrdersFrom(rows, n - 1), Prepend(x, tail), k);
      AverageHits(Remove(rows, n - 1), k - 1);
      FirstRowTotal(rows, n - 1, k);
      OneMorePositive(rows, n);
      assert OrdersFrom(rows, n) == OrdersFrom(rows, n - 1) + Prepend(x, tail);
      AddTotals(rows, n, k, c, p, TotalHits(OrdersFrom(rows, n - 1), k), TotalHits(Prepend(x, tail), k));
    }
  }

  lemma NonePositive(rows: seq<Row>)
    ensures Positives(rows[..0]) == 0
  {
  }

  lemma OneMorePositive(rows: seq<Row>, n: nat)
    requires 1 <= n <= |rows|
    ensures Positives(rows[..n]) == Positives(rows[..n - 1]) + Weight(rows[n - 1])
  {
    var x := rows[n - 1];
    PositivesConcat(rows[..n - 1], [x]);
    assert rows[..n] == rows[..n - 1] + [x] && Positives([x]) == Weight(x);
  }

  lemma AddTotals(rows: seq<Row>, n: nat, k: nat, c: real, p: real, before: nat, more: nat)
    requires 1 <= n <= |rows| && 1 <= k <= |rows|
    requires Positives(rows[..n]) == Positives(rows[..n - 1]) + Weight(rows[n - 1])
    requires before as real ==
      Partial(c, p, Positives(rows[..n - 1]) as real, (n - 1) as real, Slope(rows, k), Offset(rows, k))
    requires more as real == Single(c, p, Weight(rows[n - 1]) as real, Slope(rows, k), Offset(rows, k))
    ensures (before + more) as real ==
      Partial(c, p, Positives(rows[..n]) as real, n as real, Slope(rows, k), Offset(rows, k))
  {
    hide Partial, Single, Slope, Offset, Positives;
    PartialStep(c, p, Positives(rows[..n - 1]) as real, Weight(rows[n - 1]) as real, n as real, Slope(rows, k),
      Offset(rows, k));
    assert n as real - 1.0 == (n - 1) as real;
  }

  /** The closed form is the average over all orderings by descending score. */
  lemma {:induction false} AverageHits(rows: seq<Row>, k: nat)
    requires k <= |rows|
    ensures Averages(rows, k)
    decreases |rows|, |rows| + 1
  {
    if k == 0 {
      NoHits(Orders(rows));
      ExpectedZero(rows);
    } else {
      hide Partial, Averages, Expected, Slope, Offset, TopPositives;
      TotalFrom(rows, TopSize(rows), k);
      CountFrom(rows, TopSize(rows));
      PartialComplete(rows, k);
    }
  }

  lemma {:induction false} NoHits(list: seq<seq<Row>>)
    ensures TotalHits(list, 0) == 0
  {
    if list != [] {
      NoHits(list[1..]);
    }
  }

  lemma PartialComplete(rows: seq<Row>, k: nat)
    requires 1 <= k <= |rows| && |Orders(rows)| == TopSize(rows) * |Orders(rows[1..])|
    requires TotalHits(Orders(rows), k) as real ==
             Partial(|Orders(rows[1..])| as real, TopPositives(rows), TopPositives(rows), TopSize(rows) as real,
                     Slope(rows, k), Offset(rows, k))
    ensures Averages(rows, k)
  {
    hide Partial, Expected, Orders, Share, Ratio, TotalHits, Positives;
    var c, g, p := |Orders(rows[1..])|, TopSize(rows), Positives(rows[..TopSize(rows)]);
    WeightProduct(g, c);
    ExpectedTop(rows, k);
    if k > g {
      CompleteBeyond(c as real, p as real, g as real, Offset(rows, k));
    } else if g >= 2 {
      CompleteInside(c as real, p, g, k);
    } else {
      CompleteBeyond(c as real, p as real, g as real, Offset(rows, k));
      ExpectedZero(rows[1..]);
      ShareAll(p, g);
    }
  }

  lemma ExpectedTop(rows: seq<Row>, k: nat)
    requires 1 <= k <= |rows|
    ensures var g, p := TopSize(rows), Positives(rows[..TopSize(rows)]);
      Expected(rows, k) == if k <= g then Share(k, p, g) else p as real + Expected(rows[g..], k - g)
  {
    hide Share;
  }

  lemma ShareAll(p: nat, g: nat)
    requires g >= 1
    ensures Share(g, p, g) == p as real
  {
  }

  lemma CompleteBeyond(c: real, p: real, g: real, offset: real)
    ensures Partial(c, p, p, g, 1.0, offset) == g * c * (p + offset)
  {
  }

  lemma CompleteInside(c: real, p: nat, g: nat, k: nat)
    requires g >= 2 && 1 <= k
    ensures Partial(c, p as real, p as real, g as real, Ratio(k - 1, g - 1), 0.0) == g as real * c * Share(k, p, g)
  {
    var x, n, pr := Ratio(k - 1, g - 1), (g - 1) as real, p as real;
    assert x * n == (k - 1) as real;
    assert x * (g as real * pr - pr) == x * (n * pr) == (x * n) * pr;
    assert Partial(c, pr, pr, g as real, x, 0.0) == c * pr + c * ((k - 1) as real * pr);
    assert c * pr + c * ((k - 1) as real * pr) == c * (k as real * pr);
    ShareScaled(k, p, g, c);
  }

  lemma ShareScaled(k: nat, p: nat, g: nat, c: real)
    requires g >= 1
    ensures g as real * c * Share(k, p, g) == c * (k as real * p as real)
  {
    assert g as real * Share(k, p, g) == k as real * p as real;
  }

  // ----- `Orders` lists exactly the orderings, each once -----

  /** The ordering begins with row i and continues with an ordering of the others. */
  ghost predicate BeginsWith(rows: seq<Row>, i: nat, o: seq<Row>) {
    i < |rows| && o != [] && o[0] == rows[i] && o[1..] in Orders(Remove(rows, i))
  }

  lemma PrependMembers(x: Row, list: seq<seq<Row>>, o: seq<Row>)
    ensures o in Prepend(x, list) <==> o != [] && o[0] == x && o[1..] in list
  {
    var r := Prepend(x, list);
    if o in r {
      var j :| 0 <= j < |r| && r[j] == o;
      assert o[1..] == list[j];
    }
    if o != [] && o[0] == x && o[1..] in list {
      var j :| 0 <= j < |list| && list[j] == o[1..];
      assert o == [o[0]] + o[1..];
      assert r[j] == o;
    }
  }

  lemma {:induction false} OrdersFromMembers(rows: seq<Row>, n: nat, o: seq<Row>)
    requires n <= |rows|
    ensures o in OrdersFrom(rows, n) <==> exists i :: 0 <= i < n && BeginsWith(rows, i, o)
  {
    if n > 0 {
      OrdersFromMembers(rows, n - 1, o);
      PrependMembers(rows[n - 1], Orders(Remove(rows, n - 1)), o);
      assert o in OrdersFrom(rows, n) <==> o in OrdersFrom(rows, n - 1) || BeginsWith(rows, n - 1, o);
    }
  }

  lemma FirstOf(rows: seq<Row>, o: seq<Row>) returns (i: nat)
    requires rows != [] && o in Orders(rows)
    ensures i < TopSize(rows) && BeginsWith(rows, i, o)
  {
    OrdersFromMembers(rows, TopSize(rows), o);
    var j :| 0 <= j < TopSize(rows) && BeginsWith(rows, j, o);
    i := j;
  }

  lemma RemoveFacts(rows: seq<Row>, i: nat)
    requires i < |rows|
    ensures multiset(rows) == multiset(Remove(rows, i)) + multiset{rows[i]}
    ensures Distinct(rows) ==> Distinct(Remove(rows, i))
    ensures Descending(rows) ==> Descending(Remove(rows, i))
  {
    assert rows == rows[..i] + [rows[i]] + rows[i + 1..];
  }

  lemma {:induction false} OrdersAreOrderings(rows: seq<Row>, o: seq<Row>)
    requires Descending(rows) && o in Orders(rows)
    ensures IsOrdering(rows, o)
    decreases |rows|
  {
    if rows != [] {
      hide Orders;
      var i := FirstOf(rows, o);
      RemoveFacts(rows, i);
      OrdersAreOrderings(Remove(rows, i), o[1..]);
      HeadedOrdering(rows, i, o);
    } else {
      assert o == [];
    }
  }

  lemma HeadedOrdering(rows: seq<Row>, i: nat, o: seq<Row>)
    requires Descending(rows) && i < TopSize(rows) && o != [] && o[0] == rows[i]
    requires multiset(o[1..]) == multiset(Remove(rows, i)) && Descending(o[1..])
    ensures IsOrdering(rows, o)
  {
    RemoveFacts(rows, i);
    assert o == [o[0]] + o[1..];
    assert multiset(o) == multiset(rows);
    forall j | 0 < j < |o| ensures AtLeast(o[0], o[j]) {
      InSame(o, rows, o[j]);
    }
    forall j, l | 0 <= j < l < |o| ensures AtLeast(o[j], o[l]) {
      if j > 0 {
        assert o[j] == o[1..][j - 1] && o[l] == o[1..][l - 1];
      }
    }
  }

  lemma {:induction false} OrderingsAreListed(rows: seq<Row>, o: seq<Row>)
    requires Descending(rows) && IsOrdering(rows, o)
    ensures o in Orders(rows)
    decreases |rows|
  {
    SameLength(o, rows);
    if rows != [] {
      InSame(o, rows, o[0]);
      InSame(rows, o, rows[0]);
      var i :| 0 <= i < |rows| && rows[i] == o[0];
      LeadsGroup(rows, i, o);
      RemoveFacts(rows, i);
      TailMultiset(o);
      assert Descending(o[1..]);
      OrderingsAreListed(Remove(rows, i), o[1..]);
      assert BeginsWith(rows, i, o);
      OrdersFromMembers(rows, TopSize(rows), o);
    } else {
      assert o == [];
    }
  }

  /** The first row of an ordering belongs to the leading group. */
  lemma LeadsGroup(rows: seq<Row>, i: nat, o: seq<Row>)
    requires Descending(rows) && Descending(o) && i < |rows| && o != [] && o[0] == rows[i] && rows[0] in o
    ensures i < TopSize(rows)
  {
    assert o[0].score >= rows[0].score;
    assert i > 0 ==> AtLeast(rows[0], rows[i]);
    GroupIsPrefix(rows, i);
  }

  lemma GroupIsPrefix(rows: seq<Row>, i: nat)
    requires Descending(rows) && i < |rows| && rows[i].score == rows[0].score
    ensures i < TopSize(rows)
  {
    var g := TopSize(rows);
    assert g < |rows| ==> rows[0].score > rows[g].score;
  }

  lemma {:induction false} OrdersDistinct(rows: seq<Row>)
    requires Distinct(rows)
    ensures Distinct(Orders(rows))
    decreases |rows|, |rows| + 1
  {
    if rows != [] {
      OrdersFromDistinct(rows, TopSize(rows));
    }
  }

  lemma {:induction false} OrdersFromDistinct(rows: seq<Row>, n: nat)
    requires Distinct(rows) && n <= |rows|
    ensures Distinct(OrdersFrom(rows, n))
    decreases |rows|, n
  {
    if n > 0 {
      hide Orders, Prepend;
      OrdersFromDistinct(rows, n - 1);
      RemoveFacts(rows, n - 1);
      OrdersDistinct(Remove(rows, n - 1));
      var tail := Orders(Remove(rows, n - 1));
      PrependDistinct(rows[n - 1], tail);
      var first, last := OrdersFrom(rows, n - 1), Prepend(rows[n - 1], tail);
      forall j, l | 0 <= j < |first| && 0 <= l < |last| ensures first[j] != last[l] {
        HeadsApart(rows, n, first[j]);
      }
    }
  }

  lemma PrependDistinct(x: Row, tail: seq<seq<Row>>)
    requires Distinct(tail)
    ensures Distinct(Prepend(x, tail))
  {
    var list := Prepend(x, tail);
    forall j, l | 0 <= j < l < |list| ensures list[j] != list[l] {
      assert list[j][1..] == tail[j] && list[l][1..] == tail[l];
    }
  }

  /** An ordering that begins with an earlier row does not begin with this one. */
  lemma HeadsApart(rows: seq<Row>, n: nat, o: seq<Row>)
    requires Distinct(rows) && 0 < n <= |rows| && o in OrdersFrom(rows, n - 1)
    ensures o !in Prepend(rows[n - 1], Orders(Remove(rows, n - 1)))
  {
    hide Orders, OrdersFrom;
    OrdersFromMembers(rows, n - 1, o);
    PrependMembers(rows[n - 1], Orders(Remove(rows, n - 1)), o);
  }

  // ----- Permuting the list of orderings -----

  lemma {:induction false} TotalHitsSplit(list: seq<seq<Row>>, i: nat, k: nat)
    requires i < |list|
    ensures TotalHits(list, k) == Hits(list[i], k) + TotalHits(list[..i] + list[i + 1..], k)
  {
    TotalHitsConcat(list[..i], list[i + 1..], k);
    TotalHitsConcat(list[..i], [list[i]] + list[i + 1..], k);
    assert list == list[..i] + ([list[i]] + list[i + 1..]);
    assert ([list[i]] + list[i + 1..])[1..] == list[i + 1..];
  }

  lemma {:induction false} TotalHitsPermuted(a: seq<seq<Row>>, b: seq<seq<Row>>, k: nat)
    requires multiset(a) == multiset(b)
    ensures TotalHits(a, k) == TotalHits(b, k)
  {
    SameLength(a, b);
    if a != [] {
      InSame(a, b, a[0]);
      var i :| 0 <= i < |b| && b[i] == a[0];
      var rest := b[..i] + b[i + 1..];
      assert b == b[..i] + [b[i]] + b[i + 1..];
      TailMultiset(a);
      TotalHitsPermuted(a[1..], rest, k);
      TotalHitsSplit(b, i, k);
    }
  }

  lemma {:induction false} OrdersNonEmpty(rows: seq<Row>)
    ensures Orders(rows) != []
    decreases |rows|
  {
    if rows != [] {
      OrdersNonEmpty(rows[1..]);
      CountFrom(rows, TopSize(rows));
      ProductPositive(TopSize(rows), |Orders(rows[1..])|);
    }
  }

  lemma ProductPositive(a: nat, b: nat)
    requires a >= 1 && b >= 1
    ensures a * b >= 1
  {
  }

  lemma CancelFactor(n: real, x: real, y: real)
    requires n > 0.0 && n * x == n * y
    ensures x == y
  {
  }

  // ----- Bounds and boundaries -----

  lemma {:induction false} ExpectedBounds(rows: seq<Row>, k: nat)
    requires k <= |rows|
    ensures 0.0 <= Expected(rows, k) <= k as real
    decreases |rows|
  {
    if rows != [] {
      var g := TopSize(rows);
      var p := Positives(rows[..g]);
      PositivesBound(rows[..g]);
      if k <= g {
        ShareBounds(k, p, g);
      } else {
        ExpectedBounds(rows[g..], k - g);
      }
    }
  }

  lemma ShareBounds(k: nat, p: nat, g: nat)
    requires 1 <= g && p <= g
    ensures 0.0 <= Share(k, p, g) <= k as real
  {
    var x := Share(k, p, g);
    assert x * g as real == k as real * p as real;
    assert k as real * p as real <= k as real * g as real;
  }

  /** A budget that cuts between two score groups. */
  ghost predicate Boundary(rows: seq<Row>, k: nat) {
    k <= |rows| && (0 < k < |rows| ==> rows[k - 1].score != rows[k].score)
  }

  /** At a group boundary every ordering, hence any tie-break, has exactly the expected number of positives. */
  lemma {:induction false} BoundaryHits(rows: seq<Row>, o: seq<Row>, k: nat)
    requires Descending(rows) && Boundary(rows, k) && o in Orders(rows)
    ensures Hits(o, k) as real == Expected(rows, k)
    decreases |rows|
  {
    if k == 0 {
      ExpectedZero(rows);
    } else {
      hide Orders, Expected, Boundary, Descending, Remove, TopSize;
      BoundaryBeyond(rows, k);
      var i := FirstOf(rows, o);
      RemoveFacts(rows, i);
      BoundaryKept(rows, i, k);
      BoundaryHits(Remove(rows, i), o[1..], k - 1);
      BoundaryRemove(rows, i, k);
    }
  }

  lemma BoundaryBeyond(rows: seq<Row>, k: nat)
    requires Boundary(rows, k) && k > 0
    ensures TopSize(rows) <= k <= |rows|
  {
  }

  lemma BoundaryKept(rows: seq<Row>, i: nat, k: nat)
    requires i < TopSize(rows) <= k && Boundary(rows, k)
    ensures Boundary(Remove(rows, i), k - 1)
  {
    var r := Remove(rows, i);
    if 0 < k - 1 < |r| {
      assert r[k - 1] == rows[k];
      assert r[k - 2] == if k - 2 < i then rows[k - 2] else rows[k - 1];
    }
  }

  lemma BoundaryRemove(rows: seq<Row>, i: nat, k: nat)
    requires i < TopSize(rows) && TopSize(rows) <= k <= |rows|
    ensures Expected(rows, k) == Weight(rows[i]) as real + Expected(Remove(rows, i), k - 1)
  {
    hide Share, Expected;
    var g := TopSize(rows);
    ExpectedTop(rows, k);
    ExpectedRemove(rows, i, k);
    if k == g {
      ShareAll(Positives(rows[..g]), g);
      ExpectedZero(rows[g..]);
      if g >= 2 {
        RatioOne(g - 1);
      }
    }
  }

  lemma RatioOne(g: nat)
    requires g >= 1
    ensures Ratio(g, g) == 1.0
  {
  }

  // ----- The curve -----

  /** x is the precision at budget k averaged over all orderings of the rows by descending score. */
  ghost predicate IsAverage(rows: seq<Row>, k: nat, x: real)
    requires 1 <= k <= |rows|
  {
    exists list :: ListsOrderings(rows, list) && TotalHits(list, k) as real == |list| as real * (k as real * x)
  }

  /** The list holds every ordering of the rows exactly once. */
  ghost predicate ListsOrderings(rows: seq<Row>, list: seq<seq<Row>>) {
    list != [] && Distinct(list) && forall o :: o in list <==> IsOrdering(rows, o)
  }

  lemma AtLeastOrder()
    ensures TotalPreorder(AtLeast)
  {
  }

  /** `sorted(rows, key=score, reverse=True)` is a descending arrangement of the rows. */
  lemma SortedDescends(rows: seq<Row>)
    ensures multiset(Sorted(rows, AtLeast)) == multiset(rows) && Descending(Sorted(rows, AtLeast))
  {
    AtLeastOrder();
    SortedOrdered(rows, AtLeast);
    var s := Sorted(rows, AtLeast);
    assert forall i, j :: 0 <= i < j < |s| ==> AtLeast(s[i], s[j]);
  }

  lemma OrdersListed(rows: seq<Row>, sorted: seq<Row>)
    requires Distinct(rows) && multiset(sorted) == multiset(rows) && Descending(sorted)
    ensures ListsOrderings(rows, Orders(sorted))
  {
    PermutationDistinct(rows, sorted);
    OrdersDistinct(sorted);
    OrdersNonEmpty(sorted);
    forall o ensures o in Orders(sorted) <==> IsOrdering(rows, o) {
      if o in Orders(sorted) {
        OrdersAreOrderings(sorted, o);
      }
      if IsOrdering(rows, o) {
        OrderingsAreListed(sorted, o);
      }
    }
  }

  lemma ExpectedIsAverage(rows: seq<Row>, sorted: seq<Row>, k: nat, x: real)
    requires Distinct(rows) && multiset(sorted) == multiset(rows) && Descending(sorted)
    requires 1 <= k <= |rows| && |rows| == |sorted| && k as real * x == Expected(sorted, k)
    ensures IsAverage(rows, k, x) && 0.0 <= x <= 1.0
  {
    hide Expected, Orders, TotalHits, ListsOrderings, Descending, IsAverage;
    OrdersListed(rows, sorted);
    AverageHits(sorted, k);
    WitnessAverage(rows, k, x, Orders(sorted), Expected(sorted, k));
    ExpectedBounds(sorted, k);
    UnitRange(k, x, Expected(sorted, k));
  }

  lemma WitnessAverage(rows: seq<Row>, k: nat, x: real, list: seq<seq<Row>>, e: real)
    requires 1 <= k <= |rows| && ListsOrderings(rows, list) && TotalHits(list, k) as real == |list| as real * e
    requires e == k as real * x
    ensures IsAverage(rows, k, x)
  {
    hide TotalHits, ListsOrderings;
  }

  lemma UnitRange(k: nat, x: real, e: real)
    requires k >= 1 && e == k as real * x && 0.0 <= e <= k as real
    ensures 0.0 <= x <= 1.0
  {
    UnitFactor(k as real, x, e);
  }

  /** The average is a single number, and the order in which the rows were given does not matter. */
  lemma AverageUnique(a: seq<Row>, b: seq<Row>, k: nat, x: real, y: real)
    requires multiset(a) == multiset(b) && 1 <= k <= |a| && k <= |b|
    requires IsAverage(a, k, x) && IsAverage(b, k, y)
    ensures x == y
  {
    hide TotalHits, IsOrdering, Distinct;
    var c :| ListsOrderings(a, c) && TotalHits(c, k) as real == |c| as real * (k as real * x);
    var d :| ListsOrderings(b, d) && TotalHits(d, k) as real == |d| as real * (k as real * y);
    SameOrderings(a, b, c, d);
    SameLength(c, d);
    TotalHitsPermuted(c, d, k);
    CancelFactor(|c| as real, k as real * x, k as real * y);
    CancelFactor(k as real, x, y);
  }

  lemma SameOrderings(a: seq<Row>, b: seq<Row>, c: seq<seq<Row>>, d: seq<seq<Row>>)
    requires multiset(a) == multiset(b) && ListsOrderings(a, c) && ListsOrderings(b, d)
    ensures multiset(c) == multiset(d)
  {
    forall o ensures o in c <==> o in d {
      assert IsOrdering(a, o) <==> IsOrdering(b, o);
    }
    DistinctPermutation(c, d);
  }

  /** From a group boundary on, the expectation continues from the positives seen so far. */
  ghost predicate Continues(ordered: seq<Row>, seen: nat, positiveSeen: nat) {
    seen <= |ordered| &&
    forall t :: seen <= t <= |ordered| ==>
      Expected(ordered, t) == positiveSeen as real + Expected(ordered[seen..], t - seen)
  }

  lemma ContinuesStart(ordered: seq<Row>)
    ensures Continues(ordered, 0, 0)
  {
    assert ordered[0..] == ordered;
  }

  lemma ContinuesGroup(ordered: seq<Row>, seen: nat, positiveSeen: nat)
    requires Continues(ordered, seen, positiveSeen) && seen < |ordered|
    ensures var g := TopSize(ordered[seen..]);
      Continues(ordered, seen + g, positiveSeen + Positives(ordered[seen..][..g]))
  {
    hide Expected;
    var g := TopSize(ordered[seen..]);
    forall t | seen + g <= t <= |ordered|
      ensures Expected(ordered, t) ==
              (positiveSeen + Positives(ordered[seen..][..g])) as real + Expected(ordered[seen + g..], t - (seen + g))
    {
      ContinuesGroupAt(ordered, seen, positiveSeen, t);
    }
  }

  lemma ContinuesGroupAt(ordered: seq<Row>, seen: nat, positiveSeen: nat, t: nat)
    requires Continues(ordered, seen, positiveSeen) && seen < |ordered|
    requires seen + TopSize(ordered[seen..]) <= t <= |ordered|
    ensures var g := TopSize(ordered[seen..]);
      Expected(ordered, t) ==
      (positiveSeen + Positives(ordered[seen..][..g])) as real + Expected(ordered[seen + g..], t - (seen + g))
  {
    hide Expected, Share;
    var rest := ordered[seen..];
    var g := TopSize(rest);
    assert rest[g..] == ordered[seen + g..];
    assert Expected(ordered, t) == positiveSeen as real + Expected(rest, t - seen);
    ExpectedTop(rest, t - seen);
    if t == seen + g {
      ShareAll(Positives(rest[..g]), g);
      ExpectedZero(rest[g..]);
    }
  }

  /** The curve entry at position j is the expected precision at budget j + 1. */
  ghost predicate IsEntry(ordered: seq<Row>, j: nat, x: real) {
    j < |ordered| && (j + 1) as real * x == Expected(ordered, j + 1)
  }

  /** The script's expression for a budget inside the current group. */
  function GroupPrecision(seen: nat, positiveSeen: nat, offset: nat, positive: nat, size: nat): real
    requires size >= 1 && offset >= 1
  {
    (positiveSeen as real + offset as real * positive as real / size as real) / (seen + offset) as real
  }

  lemma GroupEntry(ordered: seq<Row>, seen: nat, positiveSeen: nat, offset: nat)
    requires Continues(ordered, seen, positiveSeen) && seen < |ordered| && 1 <= offset <= TopSize(ordered[seen..])
    ensures var g := TopSize(ordered[seen..]);
      IsEntry(ordered, seen + offset - 1,
        GroupPrecision(seen, positiveSeen, offset, Positives(ordered[seen..][..g]), g))
  {
    hide Expected;
    var rest := ordered[seen..];
    assert Expected(ordered, seen + offset) == positiveSeen as real + Expected(rest, seen + offset - seen);
    ExpectedTop(rest, offset);
  }

  /** Lines 335-344: one entry per scored labelled row, each the average over all tie orders. */
  method RankCurve(decided: seq<Row>) returns (curve: seq<real>)
    requires Distinct(decided)
    ensures |curve| == |decided|
    ensures forall j :: 0 <= j < |decided| ==> IsAverage(decided, j + 1, curve[j]) && 0.0 <= curve[j] <= 1.0
  {
    hide Expected, Continues, IsAverage, IsEntry, GroupPrecision, Sorted;
    var ordered := Sorted(decided, AtLeast);
    SortedDescends(decided);
    SameLength(ordered, decided);
    curve := [];
    var seen, positiveSeen := 0, 0;
    ContinuesStart(ordered);
    while seen < |ordered|
      invariant |curve| == seen <= |ordered| && Continues(ordered, seen, positiveSeen)
      invariant forall j :: 0 <= j < |curve| ==> IsEntry(ordered, j, curve[j])
    {
      var g := TopSize(ordered[seen..]);
      var positive := Positives(ordered[seen..][..g]);
      for offset := 1 to g + 1
        invariant |curve| == seen + offset - 1
        invariant forall j :: 0 <= j < |curve| ==> IsEntry(ordered, j, curve[j])
      {
        GroupEntry(ordered, seen, positiveSeen, offset);
        curve := curve + [GroupPrecision(seen, positiveSeen, offset, positive, g)];
      }
      ContinuesGroup(ordered, seen, positiveSeen);
      positiveSeen := positiveSeen + positive;
      seen := seen + g;
    }
    forall j | 0 <= j < |decided| ensures IsAverage(decided, j + 1, curve[j]) && 0.0 <= curve[j] <= 1.0 {
      EntryIsAverage(decided, ordered, j, curve[j]);
    }
  }

  lemma EntryIsAverage(decided: seq<Row>, ordered: seq<Row>, j: nat, x: real)
    requires Distinct(decided) && multiset(ordered) == multiset(decided) && Descending(ordered)
    requires |ordered| == |decided| && IsEntry(ordered, j, x)
    ensures IsAverage(decided, j + 1, x) && 0.0 <= x <= 1.0
  {
    hide Expected, IsAverage, Descending, Distinct;
    ExpectedIsAverage(decided, ordered, j + 1, x);
  }

  /** At a group boundary the curve is exact for every tie-break, not only on average. */
  lemma TieBreakExact(decided: seq<Row>, ordered: seq<Row>, o: seq<Row>, k: nat, x: real)
    requires Distinct(decided) && IsOrdering(decided, ordered) && IsOrdering(decided, o)
    requires 1 <= k <= |decided| && Boundary(ordered, k) && IsAverage(decided, k, x)
    ensures Hits(o, k) as real == k as real * x
  {
    hide Expected, IsAverage, Hits;
    SameLength(ordered, decided);
    AverageIsExpected(decided, ordered, k, x);
    OrderingsAreListed(ordered, o);
    BoundaryHits(ordered, o, k);
  }

  lemma AverageIsExpected(decided: seq<Row>, ordered: seq<Row>, k: nat, x: real)
    requires Distinct(decided) && IsOrdering(decided, ordered) && |ordered| == |decided|
    requires 1 <= k <= |decided| && IsAverage(decided, k, x)
    ensures k as real * x == Expected(ordered, k)
  {
    hide Expected, IsAverage;
    var y := Expected(ordered, k) / k as real;
    assert k as real * y == Expected(ordered, k);
    ExpectedIsAverage(decided, ordered, k, y);
    AverageUnique(decided, decided, k, x, y);
  }
}
