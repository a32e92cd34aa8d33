/**
 The summary of one variant (`_summary`, scripts/benchmark_callee_context.py, lines 325-359): which pairs are
 labelled and scored, the four outcomes with their ratios, and the rank curve, none of which depends on the order
 of the pairs.
 */
module ControlSummary {
  import opened Wrappers
  import opened FiniteSets
  import opened Sorting
  import opened Selections
  import opened RealProducts
  import opened TieAwareRanking

  /** A pair with its oracle label, if known, and the variant's score, if it did not abstain. */
  datatype Control = Control(positive: Option<bool>, score: Option<real>, exact: bool)

  // ----- Which pairs count -----

  ghost function LabelledAt(rows: seq<Control>): set<int> {
    set k | 0 <= k < |rows| && rows[k].positive.Some?
  }

  ghost function PositivesAt(rows: seq<Control>): set<int> {
    set k | 0 <= k < |rows| && rows[k].positive == Some(true)
  }

  ghost function DecidedAt(rows: seq<Control>): set<int> {
    set k | 0 <= k < |rows| && rows[k].positive.Some? && rows[k].score.Some?
  }

  /** The scored pairs with this label and this exactness. */
  ghost function OutcomeAt(rows: seq<Control>, positive: bool, exact: bool): set<int> {
    set k | 0 <= k < |rows| && rows[k].positive == Some(positive) && rows[k].score.Some? && rows[k].exact == exact
  }

  /** The scored labelled rows, in input order. */
  ghost function Decided(rows: seq<Control>): seq<Row> {
    if rows == [] then []
    else
      var front, last := Decided(rows[..|rows| - 1]), rows[|rows| - 1];
      if last.positive.Some? && last.score.Some?
      then front + [Row(|rows| - 1, last.score.value, last.positive.value, last.exact)]
      else front
  }

  /** They are the pairs at the scored labelled positions, in order, with score, label and exactness kept. */
  lemma {:induction false} DecidedExactly(rows: seq<Control>) returns (ks: seq<int>)
    ensures Enumerates(ks, DecidedAt(rows)) && |Decided(rows)| == |ks|
    ensures forall j :: 0 <= j < |ks| ==>
      0 <= ks[j] < |rows| && rows[ks[j]].positive.Some? && rows[ks[j]].score.Some? &&
      Decided(rows)[j] == Row(ks[j], rows[ks[j]].score.value, rows[ks[j]].positive.value, rows[ks[j]].exact)
  {
    ks := [];
    if rows != [] {
      var n := |rows| - 1;
      var front := rows[..n];
      ks := DecidedExactly(front);
      if rows[n].positive.Some? && rows[n].score.Some? {
        EnumerateMore(ks, DecidedAt(front), n);
        assert DecidedAt(rows) == DecidedAt(front) + {n};
        ks := ks + [n];
      } else {
        assert DecidedAt(rows) == DecidedAt(front);
      }
    }
  }

  lemma DecidedDistinct(rows: seq<Control>)
    ensures Distinct(Decided(rows)) && |Decided(rows)| == |DecidedAt(rows)|
  {
    var ks := DecidedExactly(rows);
    assert Distinct(ks);
    DistinctSize(ks);
  }

  /** `[row for row in rows if ...]` with both conditions. */
  method CollectDecided(rows: seq<Control>) returns (decided: seq<Row>)
    ensures decided == Decided(rows)
  {
    decided := [];
    for k := 0 to |rows|
      invariant decided == Decided(rows[..k])
    {
      assert rows[..k + 1][..k] == rows[..k];
      var row := rows[k];
      if row.positive.Some? && row.score.Some? {
        decided := decided + [Row(k, row.score.value, row.positive.value, row.exact)];
      }
    }
    assert rows[..|rows|] == rows;
  }

  /** `len(labelled)`. */
  method CountLabelled(rows: seq<Control>) returns (labelled: nat)
    ensures labelled == |LabelledAt(rows)|
  {
    labelled := 0;
    ghost var seen: set<int> := {};
    for k := 0 to |rows|
      invariant seen == (set l | 0 <= l < k && rows[l].positive.Some?) && labelled == |seen|
    {
      if rows[k].positive.Some? {
        seen := seen + {k};
        labelled := labelled + 1;
      }
    }
  }

  /** `sum(row["positive"] for row in labelled)`. */
  method CountPositives(rows: seq<Control>) returns (positives: nat)
    ensures positives == |PositivesAt(rows)|
  {
    positives := 0;
    ghost var seen: set<int> := {};
    for k := 0 to |rows|
      invariant seen == (set l | 0 <= l < k && rows[l].positive == Some(true)) && positives == |seen|
    {
      if rows[k].positive.Some? && rows[k].positive.value {
        seen := seen + {k};
        positives := positives + 1;
      }
    }
  }

  // ----- The four outcomes -----

  /** How many rows have this label and this exactness. */
  ghost function Tally(rows: seq<Row>, positive: bool, exact: bool): nat {
    if rows == [] then 0
    else Tally(rows[..|rows| - 1], positive, exact) +
         (if rows[|rows| - 1].positive == positive && rows[|rows| - 1].exact == exact then 1 else 0)
  }

  lemma {:induction false} OutcomesCounted(rows: seq<Control>, positive: bool, exact: bool)
    ensures Tally(Decided(rows), positive, exact) == |OutcomeAt(rows, positive, exact)|
  {
    if rows != [] {
      var n := |rows| - 1;
      var front, last := rows[..n], rows[n];
      OutcomesCounted(front, positive, exact);
      if last.positive.Some? && last.score.Some? {
        var row := Row(n, last.score.value, last.positive.value, last.exact);
        assert (Decided(front) + [row])[..|Decided(front)|] == Decided(front);
      }
      if last.positive == Some(positive) && last.score.Some? && last.exact == exact {
        assert OutcomeAt(rows, positive, exact) == OutcomeAt(front, positive, exact) + {n};
      } else {
        assert OutcomeAt(rows, positive, exact) == OutcomeAt(front, positive, exact);
      }
    }
  }

  /** The confusion counts; what they leave over are the true negatives. */
  method CountOutcomes(decided: seq<Row>) returns (tp: nat, fp: nat, fn: nat)
    ensures tp == Tally(decided, true, true) && fp == Tally(decided, false, true) && fn == Tally(decided, true, false)
    ensures |decided| - tp - fp - fn == Tally(decided, false, false)
  {
    tp, fp, fn := 0, 0, 0;
    for k := 0 to |decided|
      invariant tp == Tally(decided[..k], true, true) && fp == Tally(decided[..k], false, true)
      invariant fn == Tally(decided[..k], true, false)
      invariant k - tp - fp - fn == Tally(decided[..k], false, false)
    {
      assert decided[..k + 1][..k] == decided[..k];
      if decided[k].positive && decided[k].exact { tp := tp + 1; }
      if !decided[k].positive && decided[k].exact { fp := fp + 1; }
      if decided[k].positive && !decided[k].exact { fn := fn + 1; }
    }
    assert decided[..|decided|] == decided;
  }

  /** A ratio is reported exactly when the divisor is not zero. */
  ghost predicate IsRatio(q: Option<real>, a: int, b: int) {
    (q.None? <==> b == 0) && (q.Some? ==> q.value * b as real == a as real)
  }

  function Quotient(a: nat, b: nat): (q: Option<real>)
    ensures IsRatio(q, a, b)
  {
    if b == 0 then None else Some(a as real / b as real)
  }

  // ----- The summary -----

  datatype Summary = Summary(labelled: nat, unknown: nat, scored: nat, abstained: nat,
                             tp: nat, fp: nat, fn: nat, tn: int,
                             precision: Option<real>, conditionalRecall: Option<real>, endToEndRecall: Option<real>,
                             curve: seq<real>)

  /** One entry per scored labelled row, in [0, 1]: the precision averaged over all orderings by descending score. */
  ghost predicate IsCurve(rows: seq<Control>, curve: seq<real>) {
    |curve| == |Decided(rows)| &&
    forall j :: 0 <= j < |curve| ==> IsAverage(Decided(rows), j + 1, curve[j]) && 0.0 <= curve[j] <= 1.0
  }

  method Summarize(rows: seq<Control>) returns (s: Summary)
    ensures s.labelled == |LabelledAt(rows)| && s.labelled + s.unknown == |rows|
    ensures s.scored == |DecidedAt(rows)| && s.scored + s.abstained == s.labelled
    ensures s.tp == |OutcomeAt(rows, true, true)| && s.fp == |OutcomeAt(rows, false, true)|
    ensures s.fn == |OutcomeAt(rows, true, false)| && s.tn == |OutcomeAt(rows, false, false)|
    ensures IsRatio(s.precision, s.tp, s.tp + s.fp) && IsRatio(s.conditionalRecall, s.tp, s.tp + s.fn)
    ensures IsRatio(s.endToEndRecall, s.tp, |PositivesAt(rows)|)
    ensures |s.curve| == s.scored == s.tp + s.fp + s.fn + s.tn && IsCurve(rows, s.curve)
  {
    hide IsAverage, Tally, Decided, IsRatio;
    var labelled := CountLabelled(rows);
    var positives := CountPositives(rows);
    var decided := CollectDecided(rows);
    DecidedDistinct(rows);
    LabelSizes(rows);
    var tp, fp, fn := CountOutcomes(decided);
    OutcomesCounted(rows, true, true);
    OutcomesCounted(rows, false, true);
    OutcomesCounted(rows, true, false);
    OutcomesCounted(rows, false, false);
    var curve := RankCurve(decided);
    s := Summary(labelled, |rows| - labelled, |decided|, labelled - |decided|, tp, fp, fn,
                 |decided| - tp - fp - fn, Quotient(tp, tp + fp), Quotient(tp, tp + fn),
                 Quotient(tp, positives), curve);
  }

  lemma LabelSizes(rows: seq<Control>)
    ensures |DecidedAt(rows)| <= |LabelledAt(rows)| <= |rows|
  {
    SubsetSize(DecidedAt(rows), LabelledAt(rows));
    RangeSize(LabelledAt(rows), |rows|);
  }

  // ----- Independence of the input order -----

  ghost function CountIf<X>(s: seq<X>, p: X -> bool): nat {
    if s == [] then 0 else (if p(s[0]) then 1 else 0) + CountIf(s[1..], p)
  }

  lemma {:induction false} CountIfConcat<X>(a: seq<X>, b: seq<X>, p: X -> bool)
    ensures CountIf(a + b, p) == CountIf(a, p) + CountIf(b, p)
  {
    if a == [] {
      assert a + b == b;
    } else {
      CountIfConcat(a[1..], b, p);
      assert (a + b)[1..] == a[1..] + b;
    }
  }

  lemma {:induction false} CountIfPermuted<X>(a: seq<X>, b: seq<X>, p: X -> bool)
    requires multiset(a) == multiset(b)
    ensures CountIf(a, p) == CountIf(b, p)
  {
    SameLength(a, b);
    if a != [] {
      InSame(a, b, a[0]);
      var i :| 0 <= i < |b| && b[i] == a[0];
      var front, back := b[..i], b[i + 1..];
      assert b == front + ([b[i]] + back);
      TailMultiset(a);
      CountIfPermuted(a[1..], front + back, p);
      CountIfConcat(front, back, p);
      CountIfConcat(front, [b[i]] + back, p);
      assert ([b[i]] + back)[1..] == back;
    }
  }

  ghost function HasScore(s: real): Row -> bool {
    (r: Row) => r.score == s
  }

  ghost function PositiveAt(s: real): Row -> bool {
    (r: Row) => r.positive && r.score == s
  }

  lemma {:induction false} AllAt(rows: seq<Row>, s: real)
    requires forall i :: 0 <= i < |rows| ==> rows[i].score == s
    ensures CountIf(rows, PositiveAt(s)) == Positives(rows)
  {
    if rows != [] {
      AllAt(rows[1..], s);
    }
  }

  lemma {:induction false} NoneAt(rows: seq<Row>, s: real)
    requires forall i :: 0 <= i < |rows| ==> rows[i].score != s
    ensures CountIf(rows, PositiveAt(s)) == 0
  {
    if rows != [] {
      NoneAt(rows[1..], s);
    }
  }

  /** The positives of the leading group are those with the top score... */
  lemma TopCounts(rows: seq<Row>)
    requires rows != [] && Descending(rows)
    ensures CountIf(rows, PositiveAt(rows[0].score)) == Positives(rows[..TopSize(rows)])
    ensures CountIf(rows[TopSize(rows)..], PositiveAt(rows[0].score)) == 0
  {
    hide Positives, CountIf, PositiveAt, Leading, Descending;
    var g, s := TopSize(rows), rows[0].score;
    var top, rest := rows[..g], rows[g..];
    assert rows == top + rest;
    CountIfConcat(top, rest, PositiveAt(s));
    AllAt(top, s);
    BelowTop(rows);
    NoneAt(rest, s);
  }

  /** ... and the other scores occur in the remaining rows only. */
  lemma RestCounts(rows: seq<Row>, s: real)
    requires rows != [] && s != rows[0].score
    ensures CountIf(rows, PositiveAt(s)) == CountIf(rows[TopSize(rows)..], PositiveAt(s))
  {
    hide CountIf, PositiveAt, Leading;
    var g := TopSize(rows);
    var top, rest := rows[..g], rows[g..];
    assert rows == top + rest;
    CountIfConcat(top, rest, PositiveAt(s));
    NoneAt(top, s);
  }

  lemma BelowTop(rows: seq<Row>)
    requires rows != [] && Descending(rows)
    ensures forall i :: TopSize(rows) <= i < |rows| ==> rows[i].score != rows[0].score
  {
    var g := TopSize(rows);
    forall i | g <= i < |rows| ensures rows[i].score != rows[0].score {
      assert AtLeast(rows[0], rows[g]) && (g < i ==> AtLeast(rows[g], rows[i]));
    }
  }

  lemma DescendingDrop(rows: seq<Row>, g: nat)
    requires Descending(rows) && g <= |rows|
    ensures Descending(rows[g..])
  {
  }

  lemma RestsAgree(a: seq<Row>, b: seq<Row>)
    requires a != [] && Descending(a) && Descending(b) && SameScores(a, b)
    requires forall s :: CountIf(a, PositiveAt(s)) == CountIf(b, PositiveAt(s))
    ensures forall s :: CountIf(a[TopSize(a)..], PositiveAt(s)) == CountIf(b[TopSize(b)..], PositiveAt(s))
  {
    hide CountIf, PositiveAt, Descending, Leading, Positives;
    TopCounts(a);
    TopCounts(b);
    var u, v := a[TopSize(a)..], b[TopSize(b)..];
    forall s ensures CountIf(u, PositiveAt(s)) == CountIf(v, PositiveAt(s)) {
      if s != a[0].score {
        RestCounts(a, s);
        RestCounts(b, s);
      }
    }
  }

  /** The expectation depends only on the scores and on the number of positives at each score. */
  lemma {:induction false} ExpectedSame(a: seq<Row>, b: seq<Row>, k: nat)
    requires Descending(a) && Descending(b) && SameScores(a, b) && k <= |a|
    requires forall s :: CountIf(a, PositiveAt(s)) == CountIf(b, PositiveAt(s))
    ensures Expected(a, k) == Expected(b, k)
    decreases |a|
  {
    hide Expected, Share, CountIf, PositiveAt, Descending, Positives, TopSize;
    if k == 0 {
      ExpectedZero(a);
      ExpectedZero(b);
    } else {
      var g := TopSize(a);
      SameTop(a, b);
      TopCounts(a);
      TopCounts(b);
      ExpectedTop(a, k);
      ExpectedTop(b, k);
      if k > g {
        RestsAgree(a, b);
        DescendingDrop(a, g);
        DescendingDrop(b, g);
        ExpectedSame(a[g..], b[g..], k - g);
      }
    }
  }

  ghost function ScoresOf(rows: seq<Row>): seq<real> {
    if rows == [] then [] else [rows[0].score] + ScoresOf(rows[1..])
  }

  lemma {:induction false} ScoresOfAt(rows: seq<Row>)
    ensures |ScoresOf(rows)| == |rows| && forall i :: 0 <= i < |rows| ==> ScoresOf(rows)[i] == rows[i].score
  {
    if rows != [] {
      ScoresOfAt(rows[1..]);
    }
  }

  lemma {:induction false} ScoreMultiplicity(rows: seq<Row>, s: real)
    ensures multiset(ScoresOf(rows))[s] == CountIf(rows, HasScore(s))
  {
    if rows != [] {
      ScoreMultiplicity(rows[1..], s);
    }
  }

  predicate NotBelow(x: real, y: real) {
    x >= y
  }

  /** Two descending lists with every score equally often have the same scores in the same places. */
  lemma SortedScores(a: seq<Row>, b: seq<Row>)
    requires Descending(a) && Descending(b) && forall s :: CountIf(a, HasScore(s)) == CountIf(b, HasScore(s))
    ensures SameScores(a, b)
  {
    var x, y := ScoresOf(a), ScoresOf(b);
    forall s ensures multiset(x)[s] == multiset(y)[s] {
      ScoreMultiplicity(a, s);
      ScoreMultiplicity(b, s);
    }
    ScoresDescend(a);
    ScoresDescend(b);
    OrderedUnique(x, y, NotBelow);
    ScoresOfAt(a);
    ScoresOfAt(b);
  }

  lemma ScoresDescend(rows: seq<Row>)
    requires Descending(rows)
    ensures Ordered(ScoresOf(rows), NotBelow)
  {
    ScoresOfAt(rows);
    assert forall i, j :: 0 <= i < j < |rows| ==> AtLeast(rows[i], rows[j]);
  }

  ghost function ControlAt(s: real): Control -> bool {
    (c: Control) => c.positive.Some? && c.score == Some(s)
  }

  ghost function PositiveControlAt(s: real): Control -> bool {
    (c: Control) => c.positive == Some(true) && c.score == Some(s)
  }

  lemma {:induction false} DecidedCounts(rows: seq<Control>, s: real)
    ensures CountIf(Decided(rows), HasScore(s)) == CountIf(rows, ControlAt(s))
    ensures CountIf(Decided(rows), PositiveAt(s)) == CountIf(rows, PositiveControlAt(s))
  {
    if rows != [] {
      var front, last := rows[..|rows| - 1], rows[|rows| - 1];
      DecidedCounts(front, s);
      assert rows == front + [last];
      CountIfConcat(front, [last], ControlAt(s));
      CountIfConcat(front, [last], PositiveControlAt(s));
      if last.positive.Some? && last.score.Some? {
        var row := Row(|rows| - 1, last.score.value, last.positive.value, last.exact);
        CountIfConcat(Decided(front), [row], HasScore(s));
        CountIfConcat(Decided(front), [row], PositiveAt(s));
      }
    }
  }

  ghost function IsDecided(): Control -> bool {
    (c: Control) => c.positive.Some? && c.score.Some?
  }

  lemma {:induction false} DecidedCount(rows: seq<Control>)
    ensures |Decided(rows)| == CountIf(rows, IsDecided())
  {
    if rows != [] {
      var front, last := rows[..|rows| - 1], rows[|rows| - 1];
      DecidedCount(front);
      assert rows == front + [last];
      CountIfConcat(front, [last], IsDecided());
    }
  }

  /** Listing the pairs in another order changes neither the length of the curve nor any of its entries. */
  lemma CurveOrderFree(a: seq<Control>, b: seq<Control>, c: seq<real>, d: seq<real>)
    requires multiset(a) == multiset(b) && IsCurve(a, c) && IsCurve(b, d)
    ensures c == d
  {
    hide IsAverage, Decided;
    DecidedCount(a);
    DecidedCount(b);
    CountIfPermuted(a, b, IsDecided());
    forall j | 0 <= j < |c| ensures c[j] == d[j] {
      EntryOrderFree(a, b, j + 1, c[j], d[j]);
    }
  }

  lemma EntryOrderFree(a: seq<Control>, b: seq<Control>, k: nat, x: real, y: real)
    requires multiset(a) == multiset(b) && 1 <= k <= |Decided(a)| && k <= |Decided(b)|
    requires IsAverage(Decided(a), k, x) && IsAverage(Decided(b), k, y)
    ensures x == y
  {
    hide IsAverage, Expected, CountIf, HasScore, PositiveAt, ControlAt, PositiveControlAt, Descending, Sorted, Decided;
    var p, q := Sorted(Decided(a), AtLeast), Sorted(Decided(b), AtLeast);
    SortedDescends(Decided(a));
    SortedDescends(Decided(b));
    SameLength(p, Decided(a));
    SameLength(q, Decided(b));
    forall s
      ensures CountIf(p, HasScore(s)) == CountIf(q, HasScore(s))
      ensures CountIf(p, PositiveAt(s)) == CountIf(q, PositiveAt(s))
    {
      SortedCounts(a, p, s);
      SortedCounts(b, q, s);
      CountIfPermuted(a, b, ControlAt(s));
      CountIfPermuted(a, b, PositiveControlAt(s));
    }
    SortedScores(p, q);
    ExpectedSame(p, q, k);
    DecidedDistinct(a);
    DecidedDistinct(b);
    AverageIsExpected(Decided(a), p, k, x);
    AverageIsExpected(Decided(b), q, k, y);
    SameQuotient(k, x, y, Expected(p, k), Expected(q, k));
  }

  lemma SameQuotient(k: nat, x: real, y: real, e: real, f: real)
    requires k >= 1 && k as real * x == e && k as real * y == f && e == f
    ensures x == y
  {
    CancelFactor(k as real, x, y);
  }

  lemma SortedCounts(rows: seq<Control>, sorted: seq<Row>, s: real)
    requires multiset(sorted) == multiset(Decided(rows))
    ensures CountIf(sorted, HasScore(s)) == CountIf(rows, ControlAt(s))
    ensures CountIf(sorted, PositiveAt(s)) == CountIf(rows, PositiveControlAt(s))
  {
    CountIfPermuted(sorted, Decided(rows), HasScore(s));
    CountIfPermuted(sorted, Decided(rows), PositiveAt(s));
    DecidedCounts(rows, s);
  }
}
