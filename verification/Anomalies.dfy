/** detectAnomalies and calculateStandardDeviation of share/examples/js-examples/metrics_temporal_analysis.js,
    lines 153-205, over exact real numbers. */
module Anomalies {
  import opened Reals

  function Mean(values: seq<real>): real
    requires values != []
  {
    Total(values) / |values| as real
  }

  /** The sum of squared differences from c. */
  function SquaredDiffs(values: seq<real>, c: real): real {
    if values == [] then 0.0
    else SquaredDiffs(values[..|values| - 1], c) + Square(values[|values| - 1] - c)
  }

  /** s is the exact square root of the variance. */
  predicate IsStandardDeviation(values: seq<real>, s: real) {
    if values == [] then s == 0.0
    else s >= 0.0 && Times(|values| as real, Square(s)) == SquaredDiffs(values, Mean(values))
  }

  function Abs(d: real): (a: real)
    ensures a >= 0.0 && (a == d || a == -d)
  {
    if d < 0.0 then -d else d
  }

  datatype Severity = High | Medium

  datatype Anomaly = Anomaly(index: nat, deviation: real, severity: Severity)

  /** The positions, in order, of the values further than t from c. */
  function Beyond(values: seq<real>, c: real, t: real): (found: seq<nat>)
    ensures forall i <- found :: i < |values|
  {
    if values == [] then []
    else
      var front, n := values[..|values| - 1], |values| - 1;
      Beyond(front, c, t) + if Abs(values[n] - c) > t then [n] else []
  }

  function Indices(anomalies: seq<Anomaly>): seq<nat> {
    seq(|anomalies|, i requires 0 <= i < |anomalies| => anomalies[i].index)
  }

  /** The loop of lines 177-192; s is what calculateStandardDeviation returned. */
  method DetectAnomalies(values: seq<real>, sensitivity: real, s: real) returns (anomalies: seq<Anomaly>)
    ensures |values| < 10 ==> anomalies == []
    ensures |values| >= 10 ==> Indices(anomalies) == Beyond(values, Mean(values), sensitivity * s)
    ensures forall a <- anomalies :: a.index < |values| && a.deviation == Abs(values[a.index] - Mean(values))
    ensures forall a <- anomalies :: a.severity == High <==> a.deviation > sensitivity * s * 2.0
  {
    anomalies := [];
    if |values| < 10 {
      return;
    }
    var mean := Mean(values);
    var threshold := sensitivity * s;
    for index := 0 to |values|
      invariant Indices(anomalies) == Beyond(values[..index], mean, threshold)
      invariant forall a <- anomalies :: a.index < |values| && a.deviation == Abs(values[a.index] - mean)
      invariant forall a <- anomalies :: a.severity == High <==> a.deviation > threshold * 2.0
    {
      assert values[..index + 1][..index] == values[..index];
      var deviation := Abs(values[index] - mean);
      if deviation > threshold {
        var found := Anomaly(index, deviation, if deviation > threshold * 2.0 then High else Medium);
        assert Indices(anomalies + [found]) == Indices(anomalies) + [index];
        anomalies := anomalies + [found];
      }
    }
    assert values[..|values|] == values;
  }

  /** The positions reported are exactly those of the values more than t above or below c, in ascending order. */
  lemma {:induction false} BeyondIff(values: seq<real>, c: real, t: real)
    ensures forall i: nat :: i in Beyond(values, c, t) <==> i < |values| && (values[i] - c > t || c - values[i] > t)
    ensures forall a, b :: 0 <= a < b < |Beyond(values, c, t)| ==> Beyond(values, c, t)[a] < Beyond(values, c, t)[b]
  {
    if values != [] {
      var front := Beyond(values[..|values| - 1], c, t);
      BeyondIff(values[..|values| - 1], c, t);
      forall a | 0 <= a < |front| ensures front[a] < |values| - 1 {
        assert front[a] in front;
      }
    }
  }

  // ----- The mean and the deviation

  function Squares(values: seq<real>): real {
    if values == [] then 0.0 else Squares(values[..|values| - 1]) + Square(values[|values| - 1])
  }

  /** n times the sum of squared differences from c, for n values with these sums. */
  function DiffsForm(n: real, total: real, squares: real, c: real): real {
    Times(n, squares) - Square(total) + Square(total - Times(n, c))
  }

  function Expanded(n: real, total: real, squares: real, c: real): real {
    squares - 2.0 * Times(c, total) + Times(n, Square(c))
  }

  lemma OneMoreExpanded(n: real, total: real, squares: real, c: real, v: real)
    ensures Expanded(n, total, squares, c) + Square(v - c) == Expanded(n + 1.0, total + v, squares + Square(v), c)
  {
  }

  lemma {:induction false} DiffsExpand(values: seq<real>, c: real)
    ensures SquaredDiffs(values, c) == Expanded(|values| as real, Total(values), Squares(values), c)
  {
    if values != [] {
      hide Expanded, Square;
      var front, last := values[..|values| - 1], values[|values| - 1];
      DiffsExpand(front, c);
      OneMoreExpanded(|front| as real, Total(front), Squares(front), c, last);
    } else {
      assert Expanded(0.0, 0.0, 0.0, c) == 0.0;
    }
  }

  lemma TimesExpanded(n: real, total: real, squares: real, c: real)
    ensures Times(n, Expanded(n, total, squares, c)) == DiffsForm(n, total, squares, c)
  {
  }

  lemma MeanTimes(values: seq<real>)
    requires values != []
    ensures Times(|values| as real, Mean(values)) == Total(values)
  {
  }

  lemma GapOfSquares(n: real, total: real, squares: real, mean: real, c: real)
    requires Times(n, mean) == total
    ensures DiffsForm(n, total, squares, c) - DiffsForm(n, total, squares, mean) == Square(Times(n, c - mean))
  {
    assert total - Times(n, c) == -Times(n, c - mean) && Square(0.0) == 0.0;
  }

  /** The mean is the one centre with the least sum of squared differences. */
  lemma MeanIsBest(values: seq<real>, c: real)
    requires values != []
    ensures SquaredDiffs(values, Mean(values)) <= SquaredDiffs(values, c)
    ensures SquaredDiffs(values, Mean(values)) == SquaredDiffs(values, c) <==> c == Mean(values)
  {
    var n, total, squares, mean := |values| as real, Total(values), Squares(values), Mean(values);
    MeanTimes(values);
    DiffsExpand(values, c);
    DiffsExpand(values, mean);
    hide SquaredDiffs, Mean, Total, Squares, Expanded, DiffsForm, Square, Times;
    TimesExpanded(n, total, squares, c);
    TimesExpanded(n, total, squares, mean);
    GapOfSquares(n, total, squares, mean, c);
    SquareNonNegative(Times(n, c - mean));
    Apart(n, Expanded(n, total, squares, c), Expanded(n, total, squares, mean));
    Sign(n, c - mean);
    Sign(n, mean - c);
  }

  lemma Apart(n: real, x: real, y: real)
    requires n > 0.0
    ensures Times(n, x) - Times(n, y) >= 0.0 <==> x >= y
    ensures Times(n, x) - Times(n, y) == 0.0 <==> x == y
  {
    Sign(n, x - y);
    assert Times(n, x - y) == Times(n, x) - Times(n, y);
  }

  /** The squared deviation is the mean of the squares less the square of the mean, both times n squared. */
  lemma DeviationFromSums(values: seq<real>, s: real)
    requires values != [] && IsStandardDeviation(values, s)
    ensures var n := |values| as real;
            Times(Square(n), Square(s)) == Times(n, Squares(values)) - Square(Total(values))
  {
    var n, total, squares, mean := |values| as real, Total(values), Squares(values), Mean(values);
    assert Times(n, Square(s)) == SquaredDiffs(values, mean);
    MeanTimes(values);
    DiffsExpand(values, mean);
    TimesExpanded(n, total, squares, mean);
    assert DiffsForm(n, total, squares, mean) == Times(n, squares) - Square(total) + Square(0.0);
    assert Square(0.0) == 0.0;
    hide SquaredDiffs, Mean, Total, Squares, Expanded, DiffsForm;
    TwiceTimes(n, Square(s));
  }

  lemma TwiceTimes(n: real, x: real)
    ensures Times(n, Times(n, x)) == Times(Square(n), x)
  {
  }

  // ----- Chebyshev's bound

  lemma SquareGrows(t: real, d: real)
    requires 0.0 <= t <= d
    ensures Square(t) <= Square(d)
    ensures t < d ==> Square(t) < Square(d)
  {
    if t < d {
      PositiveTimes(d + t, d - t);
      assert Square(d) == Square(t) + Times(d + t, d - t);
    }
  }

  lemma SquareOfAbs(d: real)
    ensures Square(Abs(d)) == Square(d)
  {
  }

  lemma OneMoreTime(m: real, x: real)
    ensures Times(m + 1.0, x) == Times(m, x) + x
  {
  }

  /** Every value found adds at least the square of the threshold, and strictly more. */
  lemma {:induction false} BeyondAdds(values: seq<real>, c: real, t: real)
    requires t >= 0.0
    ensures var found := |Beyond(values, c, t)| as real;
            && Times(found, Square(t)) <= SquaredDiffs(values, c)
            && (found > 0.0 ==> Times(found, Square(t)) < SquaredDiffs(values, c))
  {
    hide Square, Times, Abs;
    if values == [] {
      ZeroTimes(Square(t));
    } else {
      var front, d := values[..|values| - 1], values[|values| - 1] - c;
      BeyondAdds(front, c, t);
      SquareNonNegative(d);
      SquareOfAbs(d);
      if Abs(d) > t {
        SquareGrows(t, Abs(d));
        OneMoreTime(|Beyond(front, c, t)| as real, Square(t));
      }
    }
  }

  lemma ZeroTimes(x: real)
    ensures Times(0.0, x) == 0.0
  {
  }

  /** found, n: counts; d: the sum of squared differences; k, s: sensitivity and standard deviation. */
  lemma Scaled(found: real, n: real, d: real, k: real, s: real)
    requires found >= 0.0 && n > 0.0 && s >= 0.0 && d == Times(n, Square(s))
    requires Times(found, Square(Times(k, s))) <= d
    requires found > 0.0 ==> Times(found, Square(Times(k, s))) < d
    ensures Times(found, Square(k)) <= n
    ensures found > 0.0 ==> Times(found, Square(k)) < n && s > 0.0
  {
    if s == 0.0 {
      assert Square(s) == 0.0 && d == 0.0;
      assert Square(Times(k, s)) == 0.0 && Times(found, 0.0) == 0.0;
      ZeroTimes(Square(k));
    } else {
      SquareNonNegative(s);
      var gap := n - Times(found, Square(k));
      assert Times(Square(s), gap) == d - Times(found, Square(Times(k, s)));
      Sign(Square(s), gap);
    }
  }

  lemma ChebyshevTimes(values: seq<real>, c: real, k: real, s: real)
    requires values != [] && k >= 0.0 && s >= 0.0 && Times(k, s) >= 0.0
    requires Times(|values| as real, Square(s)) == SquaredDiffs(values, c)
    ensures var found := |Beyond(values, c, Times(k, s))| as real; var n := |values| as real;
            Times(found, Square(k)) <= n && (found > 0.0 ==> Times(found, Square(k)) < n && s > 0.0)
  {
    hide Times, Square, SquaredDiffs, Beyond;
    var n, found := |values| as real, |Beyond(values, c, Times(k, s))| as real;
    BeyondAdds(values, c, Times(k, s));
    Scaled(found, n, SquaredDiffs(values, c), k, s);
  }

  /** However the values are spread, fewer than n / k^2 of them are reported, if any are. */
  lemma Chebyshev(values: seq<real>, k: real, s: real)
    requires values != [] && k >= 0.0 && IsStandardDeviation(values, s)
    ensures var found := |Beyond(values, Mean(values), k * s)| as real; var n := |values| as real;
            found * k * k <= n && (found > 0.0 ==> found * k * k < n && s > 0.0)
  {
    hide Times, Square, SquaredDiffs, Beyond, Mean;
    AsTimes(|Beyond(values, Mean(values), k * s)| as real, k, s);
    ChebyshevTimes(values, Mean(values), k, s);
  }

  lemma AsTimes(found: real, k: real, s: real)
    requires k >= 0.0 && s >= 0.0
    ensures k * s == Times(k, s) >= 0.0
    ensures found * k * k == Times(found, Square(k))
  {
  }

  lemma {:induction false} DiffsZeroIff(values: seq<real>, c: real)
    ensures SquaredDiffs(values, c) >= 0.0
    ensures SquaredDiffs(values, c) == 0.0 <==> forall v <- values :: v == c
  {
    if values != [] {
      hide Square;
      var front, last := values[..|values| - 1], values[|values| - 1];
      DiffsZeroIff(front, c);
      SquareNonNegative(last - c);
      assert values == front + [last];
      if SquaredDiffs(values, c) == 0.0 {
        assert forall v <- front :: v == c;
      } else if last == c {
        var v :| v in front && v != c;
        assert v in values;
      } else {
        assert last in values;
      }
    }
  }

  lemma {:induction false} TotalOfEqual(values: seq<real>, c: real)
    requires forall v <- values :: v == c
    ensures Total(values) == Times(|values| as real, c)
  {
    if values == [] {
      ZeroTimes(c);
    } else {
      var front := values[..|values| - 1];
      assert forall v <- front :: v in values;
      TotalOfEqual(front, c);
      OneMoreTime(|front| as real, c);
      assert values[|values| - 1] in values;
    }
  }

  /** The standard deviation is zero exactly when all values are equal, and then nothing is reported. */
  lemma ZeroDeviationIff(values: seq<real>, s: real, k: real)
    requires values != [] && IsStandardDeviation(values, s)
    ensures s == 0.0 <==> forall v, w :: v in values && w in values ==> v == w
    ensures s == 0.0 ==> Beyond(values, Mean(values), k * s) == []
  {
    var n, mean := |values| as real, Mean(values);
    DiffsZeroIff(values, mean);
    SquareNonNegative(s);
    Sign(n, Square(s));
    if forall v, w :: v in values && w in values ==> v == w {
      var c := values[0];
      assert c in values;
      assert forall v <- values :: v == c;
      TotalOfEqual(values, c);
      assert mean == c by {
        Quotient(n, c);
      }
      assert forall v <- values :: v == mean;
    }
    if s == 0.0 {
      NothingBeyond(values, mean, k * s);
    }
  }

  lemma Quotient(n: real, c: real)
    requires n > 0.0
    ensures Times(n, c) / n == c
  {
  }

  lemma {:induction false} NothingBeyond(values: seq<real>, c: real, t: real)
    requires t >= 0.0 && forall v <- values :: v == c
    ensures Beyond(values, c, t) == []
  {
    if values != [] {
      var front := values[..|values| - 1];
      assert forall v <- front :: v in values;
      NothingBeyond(front, c, t);
      assert values[|values| - 1] in values;
    }
  }
}
