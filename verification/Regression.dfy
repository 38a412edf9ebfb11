/** The regression lines of share/examples/js-examples: forecastLinearTrend in metrics_temporal_analysis.js and
    analyzeTrend in metrics_resource_monitor.js, over exact real numbers. */
module Regression {
  import opened Options
  import opened Reals

  datatype Point = Point(x: real, y: real)
  datatype Line = Line(slope: real, intercept: real)

  // ----- The sums of lines 287-290

  function SumX(ps: seq<Point>): real {
    if ps == [] then 0.0 else SumX(ps[..|ps| - 1]) + ps[|ps| - 1].x
  }

  function SumY(ps: seq<Point>): real {
    if ps == [] then 0.0 else SumY(ps[..|ps| - 1]) + ps[|ps| - 1].y
  }

  function SumXY(ps: seq<Point>): real {
    if ps == [] then 0.0 else SumXY(ps[..|ps| - 1]) + Times(ps[|ps| - 1].x, ps[|ps| - 1].y)
  }

  function SumXX(ps: seq<Point>): real {
    if ps == [] then 0.0 else SumXX(ps[..|ps| - 1]) + Square(ps[|ps| - 1].x)
  }

  function SumYY(ps: seq<Point>): real {
    if ps == [] then 0.0 else SumYY(ps[..|ps| - 1]) + Square(ps[|ps| - 1].y)
  }

  function Residual(x: real, y: real, line: Line): real { y - (line.slope * x + line.intercept) }

  /** The sum of squared residuals of a line (lines 297-300). */
  function Residuals(ps: seq<Point>, line: Line): real {
    if ps == [] then 0.0
    else
      var p := ps[|ps| - 1];
      Residuals(ps[..|ps| - 1], line) + Square(Residual(p.x, p.y, line))
  }

  /** The denominator of line 292. */
  function Denominator(n: real, sx: real, sxx: real): real { n * sxx - sx * sx }

  function Spread(ps: seq<Point>): real { Denominator(|ps| as real, SumX(ps), SumXX(ps)) }

  function Slope(n: real, sx: real, sy: real, sxy: real, sxx: real): real
    requires Denominator(n, sx, sxx) != 0.0
  {
    (n * sxy - sx * sy) / Denominator(n, sx, sxx)
  }

  function Intercept(n: real, sx: real, sy: real, slope: real): real
    requires n != 0.0
  {
    (sy - slope * sx) / n
  }

  /** The line of lines 292-293, or None where the program divides by zero. */
  function Fit(ps: seq<Point>): Option<Line> {
    if ps == [] || Spread(ps) == 0.0 then None
    else
      var n := |ps| as real;
      var slope := Slope(n, SumX(ps), SumY(ps), SumXY(ps), SumXX(ps));
      Some(Line(slope, Intercept(n, SumX(ps), SumY(ps), slope)))
  }

  /** The line of lines 296 and 301: the mean of the y values. */
  function Level(ps: seq<Point>): Line
    requires ps != []
  {
    Line(0.0, SumY(ps) / |ps| as real)
  }

  // ----- Algebra, kept apart from the sums

  function DistanceForm(sxx: real, sx: real, m: real, c: real): real { sxx - 2.0 * c * sx + m * c * c }

  lemma OneMoreDistance(sxx: real, sx: real, m: real, x: real, c: real)
    ensures DistanceForm(sxx, sx, m, c) + Square(x - c) == DistanceForm(sxx + Square(x), sx + x, m + 1.0, c)
  {
  }

  lemma OneMoreInSpread(m: real, sx: real, sxx: real, x: real)
    ensures Denominator(m + 1.0, sx + x, sxx + Square(x)) == Denominator(m, sx, sxx) + DistanceForm(sxx, sx, m, x)
  {
  }

  function ResidualForm(syy: real, sxy: real, sy: real, sxx: real, sx: real, m: real, a: real, b: real): real {
    syy - 2.0 * a * sxy - 2.0 * b * sy + a * a * sxx + 2.0 * a * b * sx + m * b * b
  }

  lemma OneMoreResidual(syy: real, sxy: real, sy: real, sxx: real, sx: real, m: real, x: real, y: real, line: Line)
    ensures ResidualForm(syy, sxy, sy, sxx, sx, m, line.slope, line.intercept) + Square(Residual(x, y, line))
         == ResidualForm(syy + Square(y), sxy + Times(x, y), sy + y, sxx + Square(x), sx + x, m + 1.0,
                         line.slope, line.intercept)
  {
  }

  lemma SameFactor(n: real, u: real, v: real)
    requires n > 0.0 && n * u == n * v
    ensures u == v
  {
    assert n * (u - v) == 0.0;
  }

  /** The normal equations of a line. */
  predicate Normal(n: real, sx: real, sy: real, sxy: real, sxx: real, a: real, b: real) {
    a * sx + n * b == sy && a * sxx + b * sx == sxy
  }

  /** The slope and the intercept solve the normal equations. */
  lemma Solves(n: real, sx: real, sy: real, sxy: real, sxx: real)
    requires n > 0.0 && Denominator(n, sx, sxx) != 0.0
    ensures var a := Slope(n, sx, sy, sxy, sxx); var b := Intercept(n, sx, sy, a);
            Normal(n, sx, sy, sxy, sxx, a, b)
  {
    var d, a := Denominator(n, sx, sxx), Slope(n, sx, sy, sxy, sxx);
    var b := Intercept(n, sx, sy, a);
    assert n * b == sy - a * sx;
    assert a * d == n * sxy - sx * sy;
    assert n * (a * sxx + b * sx) == a * (n * sxx) + (n * b) * sx;
    assert (n * b) * sx == sy * sx - a * (sx * sx);
    assert a * d == a * (n * sxx) - a * (sx * sx);
    SameFactor(n, a * sxx + b * sx, sxy);
  }

  /** By how much a line off by da and db is worse, times n. */
  function Excess(n: real, spread: real, sx: real, da: real, db: real): real {
    da * da * spread + Square(da * sx + n * db)
  }

  lemma ExcessPositive(n: real, spread: real, sx: real, da: real, db: real)
    requires n > 0.0 && spread > 0.0
    ensures Excess(n, spread, sx, da, db) >= 0.0
    ensures Excess(n, spread, sx, da, db) == 0.0 <==> da == 0.0 && db == 0.0
  {
    SquareNonNegative(da);
    SquareNonNegative(da * sx + n * db);
    assert da * da == Square(da);
    assert Square(da) > 0.0 ==> Square(da) * spread > 0.0;
    if da == 0.0 {
      assert da * sx + n * db == n * db;
      assert n * db == 0.0 <==> db == 0.0;
    }
  }

  lemma Difference(syy: real, sxy: real, sy: real, sxx: real, sx: real, n: real, a: real, b: real, a': real, b': real)
    requires Normal(n, sx, sy, sxy, sxx, a, b)
    ensures var gap := ResidualForm(syy, sxy, sy, sxx, sx, n, a', b') - ResidualForm(syy, sxy, sy, sxx, sx, n, a, b);
            Times(n, gap) == Excess(n, Denominator(n, sx, sxx), sx, a' - a, b' - b)
  {
  }

  // ----- When there is a line

  /** The sum of the squared distances of the x values from c. */
  function Distances(ps: seq<Point>, c: real): real {
    if ps == [] then 0.0
    else Distances(ps[..|ps| - 1], c) + Square(ps[|ps| - 1].x - c)
  }

  lemma {:induction false} DistancesExpand(ps: seq<Point>, c: real)
    ensures Distances(ps, c) == DistanceForm(SumXX(ps), SumX(ps), |ps| as real, c)
  {
    if ps != [] {
      hide DistanceForm, Square;
      var front, x := ps[..|ps| - 1], ps[|ps| - 1].x;
      DistancesExpand(front, c);
      OneMoreDistance(SumXX(front), SumX(front), |front| as real, x, c);
    }
  }

  lemma {:induction false} DistancesPositive(ps: seq<Point>, c: real)
    ensures Distances(ps, c) >= 0.0
    ensures Distances(ps, c) == 0.0 <==> forall p <- ps :: p.x == c
  {
    if ps != [] {
      var front, d := ps[..|ps| - 1], ps[|ps| - 1].x - c;
      DistancesPositive(front, c);
      SquareNonNegative(d);
      assert ps == front + [ps[|ps| - 1]];
    }
  }

  /** A further point adds its squared distances from all the others. */
  lemma {:induction false} SpreadGrows(ps: seq<Point>)
    requires ps != []
    ensures Spread(ps) == Spread(ps[..|ps| - 1]) + Distances(ps[..|ps| - 1], ps[|ps| - 1].x)
  {
    hide DistanceForm, Denominator, Square;
    var front, x := ps[..|ps| - 1], ps[|ps| - 1].x;
    DistancesExpand(front, x);
    OneMoreInSpread(|front| as real, SumX(front), SumXX(front), x);
  }

  /** The denominator is never negative, and is zero exactly when all x values are equal. */
  lemma {:induction false} SpreadPositiveIff(ps: seq<Point>)
    ensures Spread(ps) >= 0.0
    ensures Spread(ps) > 0.0 <==> exists p, q :: p in ps && q in ps && p.x != q.x
  {
    if ps != [] {
      var front, last := ps[..|ps| - 1], ps[|ps| - 1];
      SpreadPositiveIff(front);
      SpreadGrows(ps);
      DistancesPositive(front, last.x);
      assert ps == front + [last];
      if Spread(ps) > 0.0 {
        if Spread(front) > 0.0 {
          var p, q :| p in front && q in front && p.x != q.x;
          assert p in ps && q in ps;
        } else {
          var p :| p in front && p.x != last.x;
          assert p in ps && last in ps;
        }
      }
    }
  }

  /** There is a line exactly when two points have different x values. */
  lemma FitExistsIff(ps: seq<Point>)
    ensures Fit(ps).Some? <==> exists p, q :: p in ps && q in ps && p.x != q.x
  {
    SpreadPositiveIff(ps);
  }

  // ----- The line is the best one

  /** The sum of squared residuals as a polynomial in the line. */
  lemma {:induction false} ResidualsExpand(ps: seq<Point>, line: Line)
    ensures Residuals(ps, line)
         == ResidualForm(SumYY(ps), SumXY(ps), SumY(ps), SumXX(ps), SumX(ps), |ps| as real, line.slope, line.intercept)
  {
    if ps != [] {
      hide ResidualForm, Square, Times, Residual;
      var front, p := ps[..|ps| - 1], ps[|ps| - 1];
      ResidualsExpand(front, line);
      OneMoreResidual(SumYY(front), SumXY(front), SumY(front), SumXX(front), SumX(front), |front| as real,
                      p.x, p.y, line);
    }
  }

  lemma OtherLine(ps: seq<Point>, other: Line)
    requires Fit(ps).Some?
    ensures var line := Fit(ps).value;
            Times(|ps| as real, Residuals(ps, other) - Residuals(ps, line)) ==
            Excess(|ps| as real, Spread(ps), SumX(ps), other.slope - line.slope, other.intercept - line.intercept)
  {
    var line := Fit(ps).value;
    hide Excess, ResidualForm, Denominator, Slope, Intercept, Square, Times, Residual, Normal;
    Solves(|ps| as real, SumX(ps), SumY(ps), SumXY(ps), SumXX(ps));
    ResidualsExpand(ps, line);
    ResidualsExpand(ps, other);
    Difference(SumYY(ps), SumXY(ps), SumY(ps), SumXX(ps), SumX(ps), |ps| as real, line.slope, line.intercept,
               other.slope, other.intercept);
  }

  /** The computed line has the least sum of squared residuals of all lines, and is the only one that does. */
  lemma FitIsBest(ps: seq<Point>, other: Line)
    requires Fit(ps).Some?
    ensures Residuals(ps, Fit(ps).value) <= Residuals(ps, other)
    ensures Residuals(ps, Fit(ps).value) == Residuals(ps, other) <==> other == Fit(ps).value
  {
    var n, line := |ps| as real, Fit(ps).value;
    OtherLine(ps, other);
    SpreadPositiveIff(ps);
    assert n > 0.0 && Spread(ps) > 0.0;
    hide Spread, SumX, Residuals, Fit, Excess;
    ExcessPositive(n, Spread(ps), SumX(ps), other.slope - line.slope, other.intercept - line.intercept);
    Sign(n, Residuals(ps, other) - Residuals(ps, line));
    assert other == line <==> other.slope - line.slope == 0.0 && other.intercept - line.intercept == 0.0;
  }

  // ----- R squared

  /** Lines 296-302, or None where the program divides by zero. */
  function RSquared(ps: seq<Point>): Option<real> {
    if Fit(ps).None? || Residuals(ps, Level(ps)) == 0.0 then None
    else Some(1.0 - Residuals(ps, Fit(ps).value) / Residuals(ps, Level(ps)))
  }

  ghost predicate OnLine(p: Point, line: Line) { Residual(p.x, p.y, line) == 0.0 }

  lemma {:induction false} ResidualsZeroIff(ps: seq<Point>, line: Line)
    ensures Residuals(ps, line) >= 0.0
    ensures Residuals(ps, line) == 0.0 <==> forall p <- ps :: OnLine(p, line)
  {
    if ps != [] {
      hide Residual, Square;
      var front, p := ps[..|ps| - 1], ps[|ps| - 1];
      ResidualsZeroIff(front, line);
      SquareNonNegative(Residual(p.x, p.y, line));
      assert ps == front + [p];
      if Residuals(ps, line) == 0.0 {
        assert forall q <- front :: OnLine(q, line);
        assert OnLine(p, line);
      } else if OnLine(p, line) {
        var q :| q in front && !OnLine(q, line);
        assert q in ps;
      } else {
        assert p in ps;
      }
    }
  }

  lemma {:induction false} EqualSum(ps: seq<Point>, y: real)
    requires forall p <- ps :: p.y == y
    ensures SumY(ps) == Times(|ps| as real, y)
  {
    if ps != [] {
      var front := ps[..|ps| - 1];
      assert forall p <- front :: p in ps;
      EqualSum(front, y);
      assert ps[|ps| - 1] in ps;
    }
  }

  lemma MeanOfEqual(n: real, y: real)
    requires n > 0.0
    ensures Times(n, y) / n == y
  {
  }

  lemma LevelZeroIff(ps: seq<Point>)
    requires ps != []
    ensures Residuals(ps, Level(ps)) != 0.0 <==> exists p, q :: p in ps && q in ps && p.y != q.y
  {
    var mean := Level(ps).intercept;
    ResidualsZeroIff(ps, Level(ps));
    assert forall p <- ps :: OnLine(p, Level(ps)) <==> p.y == mean;
    hide Residuals, OnLine, Residual, Times;
    if forall p, q :: p in ps && q in ps ==> p.y == q.y {
      EqualSum(ps, ps[0].y);
      MeanOfEqual(|ps| as real, ps[0].y);
      assert forall p <- ps :: p.y == mean;
    }
  }

  /** R squared exists exactly when neither the x values nor the y values are all equal. */
  lemma RSquaredExistsIff(ps: seq<Point>)
    ensures RSquared(ps).Some? <==> (exists p, q :: p in ps && q in ps && p.x != q.x)
                                    && exists p, q :: p in ps && q in ps && p.y != q.y
  {
    FitExistsIff(ps);
    if ps != [] {
      LevelZeroIff(ps);
    }
  }

  lemma UnitRatio(res: real, tot: real)
    requires 0.0 <= res <= tot && tot > 0.0
    ensures 0.0 <= 1.0 - res / tot <= 1.0
    ensures 1.0 - res / tot == 1.0 <==> res == 0.0
    ensures 1.0 - res / tot == 0.0 <==> res == tot
  {
    var q := res / tot;
    assert Times(q, tot) == res;
    assert Times(1.0 - q, tot) == tot - res;
    Sign(tot, q);
    Sign(tot, 1.0 - q);
    assert Times(tot, q) == res && Times(tot, 1.0 - q) == tot - res;
  }

  /** R squared lies in [0, 1]: it is 1 exactly when every point is on the line, and 0 exactly when the line is
      level. */
  lemma RSquaredInUnit(ps: seq<Point>)
    requires RSquared(ps).Some?
    ensures 0.0 <= RSquared(ps).value <= 1.0
    ensures RSquared(ps).value == 1.0 <==> forall p <- ps :: OnLine(p, Fit(ps).value)
    ensures RSquared(ps).value == 0.0 <==> Fit(ps).value == Level(ps)
  {
    FitIsBest(ps, Level(ps));
    ResidualsZeroIff(ps, Fit(ps).value);
    ResidualsZeroIff(ps, Level(ps));
    UnitRatio(Residuals(ps, Fit(ps).value), Residuals(ps, Level(ps)));
  }

  lemma LevelTimes(syy: real, sxy: real, sy: real, sxx: real, sx: real, n: real, b: real)
    requires Times(n, b) == sy
    ensures Times(n, ResidualForm(syy, sxy, sy, sxx, sx, n, 0.0, b)) == Denominator(n, sy, syy)
  {
    assert Times(n, ResidualForm(syy, sxy, sy, sxx, sx, n, 0.0, b))
        == n * syy - 2.0 * Times(n, b) * sy + Times(n, b) * Times(n, b);
  }

  lemma BackTimes(n: real, s: real)
    requires n != 0.0
    ensures Times(n, s / n) == s
  {
  }

  /** The total sum of squares, times n, from the raw sums. */
  lemma TotalTimes(ps: seq<Point>)
    requires ps != []
    ensures Times(|ps| as real, Residuals(ps, Level(ps))) == Denominator(|ps| as real, SumY(ps), SumYY(ps))
  {
    var n := |ps| as real;
    assert Level(ps) == Line(0.0, SumY(ps) / n);
    hide *;
    ResidualsExpand(ps, Level(ps));
    BackTimes(n, SumY(ps));
    LevelTimes(SumYY(ps), SumXY(ps), SumY(ps), SumXX(ps), SumX(ps), n, SumY(ps) / n);
  }

  lemma LevelExcess(n: real, spread: real, sx: real, sy: real, a: real, b: real, mean: real)
    requires Times(n, b) == sy - Times(a, sx) && Times(n, mean) == sy
    ensures Excess(n, spread, sx, 0.0 - a, mean - b) == Times(Square(a), spread)
  {
    assert (0.0 - a) * sx + n * (mean - b) == Times(n, mean) - Times(n, b) - Times(a, sx);
    assert Square(0.0) == 0.0;
  }

  lemma FitTimes(n: real, sx: real, sy: real, sxy: real, sxx: real)
    requires n != 0.0 && Denominator(n, sx, sxx) != 0.0
    ensures var a := Slope(n, sx, sy, sxy, sxx);
            && Times(a, Denominator(n, sx, sxx)) == n * sxy - sx * sy
            && Times(n, Intercept(n, sx, sy, a)) == sy - Times(a, sx)
  {
    var d, a := Denominator(n, sx, sxx), Slope(n, sx, sy, sxy, sxx);
    hide Denominator;
    BackTimes(d, n * sxy - sx * sy);
    BackTimes(n, sy - a * sx);
  }

  /** What the line explains of it, times n. */
  lemma ExplainedTimes(ps: seq<Point>)
    requires Fit(ps).Some?
    ensures var a, n := Fit(ps).value.slope, |ps| as real;
            && Times(n, Residuals(ps, Level(ps)) - Residuals(ps, Fit(ps).value)) == Times(Square(a), Spread(ps))
            && Times(a, Spread(ps)) == n * SumXY(ps) - SumX(ps) * SumY(ps)
  {
    var n, line, mean := |ps| as real, Fit(ps).value, SumY(ps) / |ps| as real;
    assert Level(ps) == Line(0.0, mean);
    assert Spread(ps) == Denominator(n, SumX(ps), SumXX(ps)) != 0.0 && n != 0.0;
    assert line.slope == Slope(n, SumX(ps), SumY(ps), SumXY(ps), SumXX(ps))
           && line.intercept == Intercept(n, SumX(ps), SumY(ps), line.slope);
    hide *;
    OtherLine(ps, Level(ps));
    FitTimes(n, SumX(ps), SumY(ps), SumXY(ps), SumXX(ps));
    BackTimes(n, SumY(ps));
    LevelExcess(n, Spread(ps), SumX(ps), SumY(ps), line.slope, line.intercept, mean);
  }

  lemma Correlated(r: real, tot: real, res: real, n: real, spread: real, d: real, a: real, c: real)
    requires Times(r, tot) == tot - res && Times(n, tot) == d
    requires Times(n, tot - res) == Times(Square(a), spread) && Times(a, spread) == c
    ensures r * spread * d == Square(c)
  {
    assert r * spread * d == Times(spread, Times(n, Times(r, tot)));
    assert Times(spread, Times(Square(a), spread)) == Square(Times(a, spread));
  }

  lemma RatioTimes(res: real, tot: real)
    requires tot != 0.0
    ensures Times(1.0 - res / tot, tot) == tot - res
  {
  }

  /** R squared is the square of the correlation, from the raw sums. */
  lemma SquaredCorrelation(ps: seq<Point>)
    requires RSquared(ps).Some?
    ensures var n := |ps| as real;
            RSquared(ps).value * Spread(ps) * Denominator(n, SumY(ps), SumYY(ps)) ==
            Square(n * SumXY(ps) - SumX(ps) * SumY(ps))
  {
    var n, tot, res := |ps| as real, Residuals(ps, Level(ps)), Residuals(ps, Fit(ps).value);
    var r, a, c := RSquared(ps).value, Fit(ps).value.slope, n * SumXY(ps) - SumX(ps) * SumY(ps);
    assert tot != 0.0 && r == 1.0 - res / tot && Fit(ps).Some? && ps != [];
    hide *;
    RatioTimes(res, tot);
    TotalTimes(ps);
    ExplainedTimes(ps);
    Correlated(r, tot, res, n, Spread(ps), Denominator(n, SumY(ps), SumYY(ps)), a, c);
  }

  // ----- The forecast

  datatype Confidence = High | Medium | Low

  /** Undefined stands for the NaN that the division by zero at line 292 spreads. */
  datatype Forecast =
    | InsufficientData
    | Undefined
    | Trend(line: Line, rSquared: Option<real>, confidence: Confidence, predicted: seq<real>)

  /** y is the line's value at x, or 0 where the line is negative. */
  ghost predicate Predicts(line: Line, x: real, y: real) {
    y >= 0.0 && (Residual(x, y, line) == 0.0 || (y == 0.0 && Residual(x, y, line) > 0.0))
  }

  /** Lines 308-318. */
  method Predict(line: Line, lastX: real, periodsAhead: int) returns (predicted: seq<real>)
    ensures |predicted| == if periodsAhead < 0 then 0 else periodsAhead
    ensures forall i :: 0 <= i < |predicted| ==> Predicts(line, lastX + (i + 1) as real, predicted[i])
  {
    predicted := [];
    var i := 1;
    while i <= periodsAhead
      invariant |predicted| == i - 1
      invariant i <= periodsAhead + 1 || i == 1
      invariant forall j :: 0 <= j < |predicted| ==> Predicts(line, lastX + (j + 1) as real, predicted[j])
    {
      var futureX := lastX + i as real;
      var predictedY := line.slope * futureX + line.intercept;
      var value := if predictedY > 0.0 then predictedY else 0.0;
      assert Predicts(line, futureX, value);
      hide Predicts;
      predicted := predicted + [value];
      i := i + 1;
    }
  }

  /** forecastLinearTrend, on points whose x is hours since the first. */
  method ForecastLinearTrend(ps: seq<Point>, periodsAhead: int) returns (f: Forecast)
    ensures f.InsufficientData? <==> |ps| < 2
    ensures f.Undefined? <==> |ps| >= 2 && forall p, q :: p in ps && q in ps ==> p.x == q.x
    ensures f.Trend? ==> forall other :: Residuals(ps, f.line) <= Residuals(ps, other)
    ensures f.Trend? ==> f.rSquared == RSquared(ps)
    ensures f.Trend? ==> (f.confidence == High <==> f.rSquared.Some? && f.rSquared.value > 0.8)
    ensures f.Trend? ==> (f.confidence == Medium <==> f.rSquared.Some? && 0.5 < f.rSquared.value <= 0.8)
    ensures f.Trend? ==> |f.predicted| == if periodsAhead < 0 then 0 else periodsAhead
    ensures f.Trend? ==>
      forall i :: 0 <= i < |f.predicted| ==> Predicts(f.line, ps[|ps| - 1].x + (i + 1) as real, f.predicted[i])
  {
    if |ps| < 2 {
      return InsufficientData;
    }
    FitExistsIff(ps);
    var fit := Fit(ps);
    if fit.None? {
      return Undefined;
    }
    forall other ensures Residuals(ps, fit.value) <= Residuals(ps, other) {
      FitIsBest(ps, other);
    }
    hide Fit, Residuals, RSquared, Predicts;
    var rSquared := RSquared(ps);
    var confidence := if rSquared.Some? && rSquared.value > 0.8 then High
                      else if rSquared.Some? && rSquared.value > 0.5 then Medium
                      else Low;
    var predicted := Predict(fit.value, ps[|ps| - 1].x, periodsAhead);
    return Trend(fit.value, rSquared, confidence, predicted);
  }

  // ----- analyzeTrend: equally spaced values

  /** The values at positions 0 to n-1. */
  function Indexed(values: seq<real>): (ps: seq<Point>)
    ensures |ps| == |values|
  {
    seq(|values|, i requires 0 <= i < |values| => Point(i as real, values[i]))
  }

  /** The reduction of line 123. */
  function Weighted(values: seq<real>): real {
    if values == [] then 0.0
    else Weighted(values[..|values| - 1]) + Times((|values| - 1) as real, values[|values| - 1])
  }

  /** Lines 121 and 124. */
  function FirstSum(n: real): real { n * (n - 1.0) / 2.0 }

  function SquaresSum(n: real): real { n * (n - 1.0) * (2.0 * n - 1.0) / 6.0 }

  /** The denominator and the slope of line 126. */
  function TrendDenominator(n: real): real { Denominator(n, FirstSum(n), SquaresSum(n)) }

  function TrendSlope(values: seq<real>): real
    requires TrendDenominator(|values| as real) != 0.0
  {
    var n := |values| as real;
    Slope(n, FirstSum(n), Total(values), Weighted(values), SquaresSum(n))
  }

  lemma OneMoreIndex(m: real)
    ensures FirstSum(m) + m == FirstSum(m + 1.0)
    ensures SquaresSum(m) + Square(m) == SquaresSum(m + 1.0)
  {
  }

  /** The closed forms are the true sums over 0 to n-1. */
  lemma {:induction false} ClosedForms(values: seq<real>)
    ensures var ps := Indexed(values); var n := |values| as real;
            && SumX(ps) == FirstSum(n) && SumXX(ps) == SquaresSum(n)
            && SumY(ps) == Total(values) && SumXY(ps) == Weighted(values)
  {
    if values != [] {
      hide FirstSum, SquaresSum, Square, Times;
      var front := values[..|values| - 1];
      ClosedForms(front);
      OneMoreIndex(|front| as real);
      assert Indexed(values)[..|front|] == Indexed(front);
    } else {
      assert FirstSum(0.0) == 0.0 && SquaresSum(0.0) == 0.0;
    }
  }

  /** From two values on the denominator is positive, and the slope is that of the best line through the values. */
  lemma TrendIsRegression(values: seq<real>)
    requires |values| >= 2
    ensures TrendDenominator(|values| as real) > 0.0
    ensures Fit(Indexed(values)).Some? && Fit(Indexed(values)).value.slope == TrendSlope(values)
  {
    var ps := Indexed(values);
    ClosedForms(values);
    assert ps[0] in ps && ps[1] in ps && ps[0].x != ps[1].x;
    SpreadPositiveIff(ps);
  }
}
