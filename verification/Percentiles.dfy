/** calculatePercentiles and calculateMedian of share/examples/js-examples/metrics_temporal_analysis.js, lines 7-27
    and 142-151, over exact real numbers. */
module Percentiles {
  import opened Options
  import opened Reals

  ghost predicate Ascending(s: seq<real>) { forall i, j :: 0 <= i < j < |s| ==> s[i] <= s[j] }

  // ----- The ascending order, which the program gets from Array.sort

  function InsertIn(s: seq<real>, v: real): seq<real> {
    if s == [] || v <= s[0] then [v] + s else [s[0]] + InsertIn(s[1..], v)
  }

  function Sort(values: seq<real>): seq<real> {
    if values == [] then [] else InsertIn(Sort(values[1..]), values[0])
  }

  lemma {:induction false} InsertInAdds(s: seq<real>, v: real)
    ensures multiset(InsertIn(s, v)) == multiset(s) + multiset{v} && |InsertIn(s, v)| == |s| + 1
  {
    if s != [] && v > s[0] {
      InsertInAdds(s[1..], v);
      assert s == [s[0]] + s[1..];
    }
  }

  lemma AscendingCons(x: real, s: seq<real>)
    requires Ascending(s) && (s != [] ==> x <= s[0])
    ensures Ascending([x] + s)
  {
  }

  lemma {:induction false} InsertInAscends(s: seq<real>, v: real)
    requires Ascending(s)
    ensures Ascending(InsertIn(s, v)) && InsertIn(s, v) != []
    ensures InsertIn(s, v)[0] == if s == [] || v <= s[0] then v else s[0]
  {
    if s == [] || v <= s[0] {
      AscendingCons(v, s);
    } else {
      InsertInAscends(s[1..], v);
      AscendingCons(s[0], InsertIn(s[1..], v));
    }
  }

  lemma {:induction false} SortAscends(values: seq<real>)
    ensures Ascending(Sort(values)) && multiset(Sort(values)) == multiset(values)
    ensures |Sort(values)| == |values|
  {
    if values != [] {
      SortAscends(values[1..]);
      InsertInAscends(Sort(values[1..]), values[0]);
      InsertInAdds(Sort(values[1..]), values[0]);
      hide Ascending, InsertIn;
      assert values == [values[0]] + values[1..];
    }
  }

  lemma HeadIsLeast(s: seq<real>, v: real)
    requires Ascending(s) && v in multiset(s)
    ensures s[0] <= v
  {
    var i :| 0 <= i < |s| && s[i] == v;
  }

  lemma WithoutHead(s: seq<real>)
    requires s != []
    ensures multiset(s[1..]) == multiset(s) - multiset{s[0]} && s[0] in multiset(s)
    ensures Ascending(s) ==> Ascending(s[1..])
  {
    assert s == [s[0]] + s[1..];
  }

  /** There is only one ascending order of the values, so it does not matter how they are sorted. */
  lemma {:induction false} OneOrder(a: seq<real>, b: seq<real>)
    requires Ascending(a) && Ascending(b) && multiset(a) == multiset(b)
    ensures a == b
  {
    SameLength(a, b);
    if a != [] {
      hide Ascending;
      WithoutHead(a);
      WithoutHead(b);
      HeadIsLeast(a, b[0]);
      HeadIsLeast(b, a[0]);
      Rest(a, b);
      OneOrder(a[1..], b[1..]);
      Heads(a, b);
    }
  }

  lemma SameLength(a: seq<real>, b: seq<real>)
    requires multiset(a) == multiset(b)
    ensures |a| == |b|
  {
    assert |a| == |multiset(a)| == |multiset(b)| == |b|;
  }

  lemma Rest(a: seq<real>, b: seq<real>)
    requires a != [] && b != [] && multiset(a) == multiset(b) && a[0] == b[0]
    ensures multiset(a[1..]) == multiset(b[1..])
  {
    WithoutHead(a);
    WithoutHead(b);
  }

  lemma Heads(a: seq<real>, b: seq<real>)
    requires a != [] && b != [] && a[0] == b[0] && a[1..] == b[1..]
    ensures a == b
  {
    assert a == [a[0]] + a[1..] && b == [b[0]] + b[1..];
  }

  // ----- Interpolation

  /** Lines 17-23, or None where the program reads past an end of the array. */
  function Between(sorted: seq<real>, index: real): Option<real> {
    var lower := index.Floor;
    if lower < 0 || lower >= |sorted| then None
    else if index == lower as real then Some(sorted[lower])
    else if lower + 1 >= |sorted| then None
    else Some(sorted[lower] + Times(sorted[lower + 1] - sorted[lower], index - lower as real))
  }

  function Index(n: nat, p: real): real { Times(p / 100.0, (n - 1) as real) }

  /** The percentile p; the program answers 0 for no values. */
  function Percentile(values: seq<real>, p: real): Option<real> {
    if values == [] then Some(0.0) else Between(Sort(values), Index(|values|, p))
  }

  function Median(values: seq<real>): real {
    if values == [] then 0.0
    else
      SortAscends(values);
      var sorted, mid := Sort(values), |values| / 2;
      if |values| % 2 == 0 then (sorted[mid - 1] + sorted[mid]) / 2.0 else sorted[mid]
  }

  /** The result has exactly the percentiles ps. */
  ghost predicate Holds(result: map<real, Option<real>>, values: seq<real>, ps: seq<real>) {
    (forall p :: p in result <==> p in ps) && forall p <- ps :: result[p] == Percentile(values, p)
  }

  lemma HoldsNext(result: map<real, Option<real>>, values: seq<real>, ps: seq<real>, i: nat)
    requires i < |ps| && Holds(result, values, ps[..i])
    ensures Holds(result[ps[i] := Percentile(values, ps[i])], values, ps[..i + 1])
  {
    assert ps[..i + 1] == ps[..i] + [ps[i]];
    hide Percentile;
  }

  method CalculatePercentiles(values: seq<real>, percentiles: seq<real>) returns (result: map<real, Option<real>>)
    ensures forall p :: p in result <==> p in percentiles
    ensures forall p <- percentiles :: result[p] == Percentile(values, p)
  {
    result := map[];
    assert Holds(result, values, percentiles[..0]);
    assert percentiles[..|percentiles|] == percentiles;
    if values == [] {
      for i := 0 to |percentiles|
        invariant Holds(result, values, percentiles[..i])
      {
        HoldsNext(result, values, percentiles, i);
        hide Holds;
        result := result[percentiles[i] := Some(0.0)];
      }
      return;
    }
    var sorted := Sort(values);
    SortAscends(values);
    for i := 0 to |percentiles|
      invariant Holds(result, values, percentiles[..i])
    {
      var percentile := percentiles[i];
      var index := percentile / 100.0 * (|sorted| - 1) as real;
      assert index == Index(|values|, percentile);
      HoldsNext(result, values, percentiles, i);
      hide Holds, Between, Index;
      result := result[percentile := Between(sorted, index)];
    }
  }

  lemma WithinStep(a: real, b: real, f: real)
    requires a <= b && 0.0 <= f <= 1.0
    ensures a <= a + Times(b - a, f) <= b
  {
    NonNegativeTimes(b - a, f);
    NonNegativeTimes(b - a, 1.0 - f);
    assert Times(b - a, 1.0 - f) == (b - a) - Times(b - a, f);
  }

  lemma NonNegativeTimes(a: real, b: real)
    requires a >= 0.0 && b >= 0.0
    ensures Times(a, b) >= 0.0
  {
  }

  lemma MoreOfStep(a: real, b: real, f: real, g: real)
    requires a <= b && f <= g
    ensures Times(b - a, f) <= Times(b - a, g)
  {
    NonNegativeTimes(b - a, g - f);
    assert Times(b - a, g - f) == Times(b - a, g) - Times(b - a, f);
  }

  lemma BetweenBounds(sorted: seq<real>, index: real)
    requires Ascending(sorted) && 0.0 <= index <= (|sorted| - 1) as real
    ensures Between(sorted, index).Some?
    ensures sorted[index.Floor] <= Between(sorted, index).value
    ensures index.Floor + 1 < |sorted| ==> Between(sorted, index).value <= sorted[index.Floor + 1]
  {
    var lower := index.Floor;
    if index != lower as real {
      assert lower + 1 < |sorted|;
      WithinStep(sorted[lower], sorted[lower + 1], index - lower as real);
    }
  }

  lemma BetweenMonotone(sorted: seq<real>, x: real, y: real)
    requires Ascending(sorted) && 0.0 <= x <= y <= (|sorted| - 1) as real
    ensures Between(sorted, x).Some? && Between(sorted, y).Some?
    ensures Between(sorted, x).value <= Between(sorted, y).value
  {
    BetweenBounds(sorted, x);
    BetweenBounds(sorted, y);
    var i, j := x.Floor, y.Floor;
    if i < j {
      assert sorted[i + 1] <= sorted[j];
    } else if x != i as real {
      MoreOfStep(sorted[i], sorted[i + 1], x - i as real, y - i as real);
    }
  }

  lemma IndexWithin(n: nat, p: real, q: real)
    requires n > 0 && p <= q
    ensures Index(n, p) <= Index(n, q)
    ensures Index(n, 0.0) == 0.0 && Index(n, 100.0) == (n - 1) as real
  {
    var m := (n - 1) as real;
    NonNegativeTimes(q / 100.0 - p / 100.0, m);
    assert Times(q / 100.0 - p / 100.0, m) == Times(q / 100.0, m) - Times(p / 100.0, m);
    assert 0.0 / 100.0 == 0.0 && 100.0 / 100.0 == 1.0;
    assert Times(0.0, m) == 0.0 && Times(1.0, m) == m;
  }

  /** A larger p never gives a smaller percentile. */
  lemma PercentileMonotone(values: seq<real>, p: real, q: real)
    requires values != [] && 0.0 <= p <= q <= 100.0
    ensures Percentile(values, p).Some? && Percentile(values, q).Some?
    ensures Percentile(values, p).value <= Percentile(values, q).value
  {
    var n := |values|;
    SortAscends(values);
    IndexWithin(n, 0.0, p);
    IndexWithin(n, p, q);
    IndexWithin(n, q, 100.0);
    BetweenMonotone(Sort(values), Index(n, p), Index(n, q));
  }

  /** Percentile 0 is the minimum, percentile 100 the maximum, and all others lie between them. */
  lemma PercentileRange(values: seq<real>, p: real)
    requires values != [] && 0.0 <= p <= 100.0
    ensures Percentile(values, 0.0).Some? && Percentile(values, p).Some? && Percentile(values, 100.0).Some?
    ensures var min := Percentile(values, 0.0).value; min in values && forall v <- values :: min <= v
    ensures var max := Percentile(values, 100.0).value; max in values && forall v <- values :: v <= max
    ensures Percentile(values, 0.0).value <= Percentile(values, p).value <= Percentile(values, 100.0).value
  {
    var n, sorted := |values|, Sort(values);
    PercentileMonotone(values, 0.0, p);
    PercentileMonotone(values, p, 100.0);
    SortAscends(values);
    IndexWithin(n, 0.0, 100.0);
    assert Percentile(values, 0.0) == Some(sorted[0]) && Percentile(values, 100.0) == Some(sorted[n - 1]);
    forall v | v in sorted ensures v in values {
      assert v in multiset(values);
    }
    forall v | v in values ensures sorted[0] <= v <= sorted[n - 1] {
      assert v in multiset(sorted);
      var i :| 0 <= i < n && sorted[i] == v;
    }
    assert sorted[0] in sorted && sorted[n - 1] in sorted;
  }

  /** Percentile 50 is the median, for odd and for even lengths. */
  lemma FiftyIsMedian(values: seq<real>)
    ensures Percentile(values, 50.0) == Some(Median(values))
  {
    if values != [] {
      var n, sorted, mid := |values|, Sort(values), |values| / 2;
      SortAscends(values);
      var index := Index(n, 50.0);
      assert 50.0 / 100.0 == 0.5 && Times(0.5, (n - 1) as real) == (n - 1) as real / 2.0;
      if n % 2 == 0 {
        assert n == 2 * mid && index == mid as real - 0.5 && index.Floor == mid - 1;
        assert Times(sorted[mid] - sorted[mid - 1], 0.5) == (sorted[mid] - sorted[mid - 1]) / 2.0;
      } else {
        assert n == 2 * mid + 1 && index == mid as real && index.Floor == mid;
      }
    }
  }

  lemma IndexAt(n: nat, x: real)
    requires n > 1
    ensures Index(n, 100.0 * x / (n - 1) as real) == x
  {
    var m := (n - 1) as real;
    assert 100.0 * x / m / 100.0 == x / m;
    Ratio(x, m);
  }

  lemma Ratio(x: real, m: real)
    requires m != 0.0
    ensures Times(x / m, m) == x
  {
  }

  lemma BetweenAt(sorted: seq<real>, i: nat, f: real)
    requires i + 1 < |sorted| && 0.0 <= f <= 1.0
    ensures Between(sorted, i as real + f) == Some(sorted[i] + Times(sorted[i + 1] - sorted[i], f))
  {
    var x := i as real + f;
    if f < 1.0 {
      assert x.Floor == i;
      assert f == 0.0 ==> Times(sorted[i + 1] - sorted[i], f) == 0.0;
    } else {
      assert x.Floor == i + 1 && Times(sorted[i + 1] - sorted[i], 1.0) == sorted[i + 1] - sorted[i];
    }
  }

  /** With the values in ascending order, the percentile moves in a straight line from each value to the next. */
  lemma BetweenRanks(values: seq<real>, i: nat, f: real)
    requires i + 1 < |values| && 0.0 <= f <= 1.0
    ensures |Sort(values)| == |values|
    ensures Percentile(values, 100.0 * (i as real + f) / (|values| - 1) as real) ==
            Some(Sort(values)[i] + Times(Sort(values)[i + 1] - Sort(values)[i], f))
  {
    SortAscends(values);
    IndexAt(|values|, i as real + f);
    BetweenAt(Sort(values), i, f);
    hide Index, Between, Sort, Times;
  }

  lemma ZeroTimes(x: real)
    ensures Times(x, 0.0) == 0.0
  {
  }

  /** A single value is every percentile, and of no values every percentile is 0. */
  lemma FewValues(values: seq<real>, p: real)
    requires |values| < 2
    ensures Percentile(values, p) == Some(if values == [] then 0.0 else values[0])
  {
    if values != [] {
      assert values[1..] == [];
      assert Sort(values) == [values[0]];
      ZeroTimes(p / 100.0);
      assert Index(1, p) == 0.0;
    }
  }

  /** Percentiles do not depend on the order of the values. */
  lemma OrderDoesNotMatter(values: seq<real>, other: seq<real>, p: real)
    requires multiset(values) == multiset(other)
    ensures Percentile(values, p) == Percentile(other, p) && Median(values) == Median(other)
  {
    assert |values| == |multiset(values)| == |multiset(other)| == |other|;
    SortAscends(values);
    SortAscends(other);
    OneOrder(Sort(values), Sort(other));
  }

  /** The program has an answer exactly when p is in [0, 100], or there are fewer than two values. */
  lemma PercentileExistsIff(values: seq<real>, p: real)
    ensures Percentile(values, p).Some? <==> |values| < 2 || 0.0 <= p <= 100.0
  {
    var n := |values|;
    if n > 0 {
      SortAscends(values);
      var m := (n - 1) as real;
      IndexWithin(n, p, p);
      if n == 1 {
        assert Index(n, p) == 0.0;
      } else if 0.0 <= p <= 100.0 {
        PercentileMonotone(values, p, p);
      } else {
        assert Index(n, p) == Times(m, p / 100.0);
        Sign(m, p / 100.0);
        Sign(m, 1.0 - p / 100.0);
        assert Times(m, 1.0 - p / 100.0) == m - Times(m, p / 100.0);
      }
    }
  }
}
