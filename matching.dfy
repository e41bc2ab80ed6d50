/**
 * The decision whether a minutia recorded in the ledger is found again on the
 * query skeleton: match_template's five window means and variance_calculation
 * over them. cv2.matchTemplate and cv2.minMaxLoc are an oracle that reports
 * where the extreme scores lie; everything after that is modelled.
 */
module Matching {
  import opened Wrappers
  import opened Images

  /** A numpy float: a real number, or NaN (the mean of an empty region, a variance of fewer than two values). */
  datatype Num = Real(v: real) | NaN

  function Sum(s: seq<real>): real {
    if |s| == 0 then 0.0 else s[0] + Sum(s[1..])
  }

  function Mean(s: seq<real>): real
    requires |s| > 0
  {
    Sum(s) / |s| as real
  }

  /** x ** 2. */
  function Square(x: real): real {
    x * x
  }

  /** x itself: the solver reads x * Same(x) as a product of two factors, whose sign it can follow. */
  function Same(x: real): real {
    x
  }

  lemma SquareFacts(x: real)
    ensures Square(x) >= 0.0
    ensures x != 0.0 ==> Square(x) > 0.0
  {
    assert Square(x) == x * Same(x);
  }

  /** The sum of the squared deviations of s from m. */
  function SquaredDeviations(s: seq<real>, m: real): (d: real)
    ensures d >= 0.0
  {
    if |s| == 0 then 0.0
    else
      SquareFacts(s[0] - m);
      Square(s[0] - m) + SquaredDeviations(s[1..], m)
  }

  /** variance_calculation on n >= 2 values: the sample variance, squared deviations over n - 1. */
  function Variance(s: seq<real>): (v: real)
    requires |s| >= 2
    ensures v >= 0.0
  {
    SquaredDeviations(s, Mean(s)) / (|s| - 1) as real
  }

  predicate AllReal(s: seq<Num>) {
    forall k :: 0 <= k < |s| ==> s[k].Real?
  }

  function Reals(s: seq<Num>): (t: seq<real>)
    requires AllReal(s)
    ensures |t| == |s| && forall k :: 0 <= k < |s| ==> t[k] == s[k].v
  {
    if |s| == 0 then [] else [s[0].v] + Reals(s[1..])
  }

  /**
   * variance_calculation as numpy evaluates it: a NaN anywhere makes the result
   * NaN, and so does n = 1 (0 / 0). For n = 0 the mean is NaN but the sum over no
   * deviations is 0, so the result is 0 / -1, a zero.
   */
  function VarianceOf(s: seq<Num>): (v: Num)
    ensures |s| == 0 ==> v == Real(0.0)
    ensures |s| > 0 ==> (v.Real? <==> |s| >= 2 && AllReal(s))
    ensures |s| > 0 && v.Real? ==> v.v == Variance(Reals(s))
  {
    if |s| == 0 then Real(0.0)
    else if |s| >= 2 && AllReal(s) then Real(Variance(Reals(s)))
    else NaN
  }

  predicate Constant(s: seq<real>) {
    forall j, k :: 0 <= j < |s| && 0 <= k < |s| ==> s[j] == s[k]
  }

  lemma {:induction false} SumOfConstant(s: seq<real>, c: real)
    requires forall k :: 0 <= k < |s| ==> s[k] == c
    ensures Sum(s) == |s| as real * c
    decreases |s|
  {
    if |s| > 0 {
      SumOfConstant(s[1..], c);
    }
  }

  lemma {:induction false} NoDeviationIffAllAt(s: seq<real>, m: real)
    ensures SquaredDeviations(s, m) == 0.0 <==> forall k :: 0 <= k < |s| ==> s[k] == m
    decreases |s|
  {
    if |s| > 0 {
      var t := s[1..];
      NoDeviationIffAllAt(t, m);
      SquareFacts(s[0] - m);
      assert (forall k :: 0 <= k < |s| ==> s[k] == m) <==> s[0] == m && forall k :: 0 <= k < |t| ==> t[k] == m by {
        assert forall k :: 0 < k < |s| ==> s[k] == t[k - 1];
      }
    }
  }

  /** A sample of two or more values has variance 0 exactly when all its values are equal. */
  lemma VarianceZeroIff(s: seq<real>)
    requires |s| >= 2
    ensures Variance(s) == 0.0 <==> Constant(s)
  {
    if Constant(s) {
      SumOfConstant(s, s[0]);
      assert Mean(s) == s[0];
      NoDeviationIffAllAt(s, s[0]);
    } else {
      var j, k :| 0 <= j < |s| && 0 <= k < |s| && s[j] != s[k];
      var i := if s[j] != Mean(s) then j else k;
      NoDeviationIffAllAt(s, Mean(s));
      assert s[i] != Mean(s);
      assert SquaredDeviations(s, Mean(s)) > 0.0;
      PositiveQuotient(SquaredDeviations(s, Mean(s)), (|s| - 1) as real);
    }
  }

  lemma PositiveQuotient(a: real, b: real)
    requires a > 0.0 && b > 0.0
    ensures a / b > 0.0
  {
  }

  /** The five cv2.matchTemplate methods, in the order match_template tries them. */
  datatype MatchMethod = CCoeff | CCoeffNormed | CCorrNormed | SqDiff | SqDiffNormed

  const Methods: seq<MatchMethod> := [CCoeff, CCoeffNormed, CCorrNormed, SqDiff, SqDiffNormed]

  /** What cv2.minMaxLoc reports about a score map: where its minimum and its maximum lie. */
  datatype Extrema = Extrema(minLoc: Point, maxLoc: Point)

  /** cv2.matchTemplate followed by cv2.minMaxLoc; None when OpenCV raises. */
  type Scorer = (MatchMethod, Grid, Grid) -> Option<Extrema>

  /** The squared-difference methods score a match low, the others high. */
  function BestLocation(m: MatchMethod, e: Extrema): (p: Point)
    ensures m in Methods[3..] ==> p == e.minLoc
    ensures m in Methods[..3] ==> p == e.maxLoc
  {
    if m == SqDiff || m == SqDiffNormed then e.minLoc else e.maxLoc
  }

  function RowSum(row: seq<int>): int {
    if |row| == 0 then 0 else row[0] + RowSum(row[1..])
  }

  function GridSum(g: seq<seq<int>>): int {
    if |g| == 0 then 0 else RowSum(g[0]) + GridSum(g[1..])
  }

  /** np.mean of image[top:top+h, left:left+w]: NaN when the region is empty. */
  function RegionMean(image: Grid, top: int, left: int, h: int, w: int): (r: Num)
    ensures var region := Crop(image, top, top + h, left, left + w);
      r.NaN? <==> |region| == 0 || Width(region) == 0
  {
    var region := Crop(image, top, top + h, left, left + w);
    if |region| == 0 || Width(region) == 0 then NaN
    else Real(GridSum(region) as real / (|region| * Width(region)) as real)
  }

  /** One pass of match_template's loop: the mean of the window at the best location for method m. */
  function MethodMean(score: Scorer, image: Grid, template: Grid, m: MatchMethod): (r: Result<Num>)
    ensures r.Failure? <==> score(m, image, template).None?
    ensures r.Failure? ==> r.error == OpenCvError
    ensures r.Success? ==>
      var p := BestLocation(m, score(m, image, template).value);
      r.value == RegionMean(image, p.y, p.x, |template|, Width(template))
  {
    match score(m, image, template)
    case None => Failure(OpenCvError)
    case Some(e) =>
      var p := BestLocation(m, e);
      Success(RegionMean(image, p.y, p.x, |template|, Width(template)))
  }

  /** The means for the methods ms in order, stopping at the first that OpenCV refuses. */
  function MeansFor(score: Scorer, image: Grid, template: Grid, ms: seq<MatchMethod>): (r: Result<seq<Num>>)
    ensures r.Success? <==> forall k :: 0 <= k < |ms| ==> MethodMean(score, image, template, ms[k]).Success?
    ensures r.Success? ==>
      |r.value| == |ms| && forall k :: 0 <= k < |ms| ==> MethodMean(score, image, template, ms[k]) == Success(r.value[k])
    ensures r.Failure? ==> r.error == OpenCvError
  {
    if |ms| == 0 then Success([])
    else
      match MethodMean(score, image, template, ms[0])
      case Failure(e) => Failure(e)
      case Success(first) =>
        match MeansFor(score, image, template, ms[1..])
        case Failure(e) => Failure(e)
        case Success(rest) =>
          TailShift(ms);
          Success([first] + rest)
  }

  lemma TailShift<T>(s: seq<T>)
    requires |s| > 0
    ensures forall k :: 1 <= k < |s| ==> s[1..][k - 1] == s[k]
  {
  }

  /**
   * match_template: for each method in turn, the mean pixel of the window of the
   * template's size at the location the method rates best.
   */
  method MatchTemplate(score: Scorer, image: Grid, template: Grid) returns (r: Result<seq<Num>>)
    ensures r == MeansFor(score, image, template, Methods)
  {
    var means: seq<Num> := [];
    var ms := Methods;
    for k := 0 to |ms|
      invariant MeansFor(score, image, template, ms[..k]) == Success(means)
    {
      var m := ms[k];
      var mean := MethodMean(score, image, template, m);
      if mean.Failure? {
        MeansForStopsAtFailure(score, image, template, ms, k);
        return Failure(OpenCvError);
      }
      assert ms[..k + 1][..k] == ms[..k];
      MeansForExtends(score, image, template, ms[..k + 1], means, mean.value);
      means := means + [mean.value];
    }
    assert ms[..|ms|] == ms;
    r := Success(means);
  }

  lemma MeansForStopsAtFailure(score: Scorer, image: Grid, template: Grid, ms: seq<MatchMethod>, k: int)
    requires 0 <= k < |ms|
    requires MethodMean(score, image, template, ms[k]).Failure?
    ensures MeansFor(score, image, template, ms) == Failure(OpenCvError)
  {
    assert !MeansFor(score, image, template, ms).Success?;
  }

  lemma MeansForExtends(score: Scorer, image: Grid, template: Grid, ms: seq<MatchMethod>, means: seq<Num>, last: Num)
    requires |ms| > 0
    requires MeansFor(score, image, template, ms[..|ms| - 1]) == Success(means)
    requires MethodMean(score, image, template, ms[|ms| - 1]) == Success(last)
    ensures MeansFor(score, image, template, ms) == Success(means + [last])
  {
    var r := MeansFor(score, image, template, ms);
    assert forall k :: 0 <= k < |ms| - 1 ==> ms[..|ms| - 1][k] == ms[k];
    assert r.Success?;
    assert r.value == means + [last] by {
      forall k | 0 <= k < |ms|
        ensures r.value[k] == (means + [last])[k]
      {
        if k < |ms| - 1 {
          assert MethodMean(score, image, template, ms[..|ms| - 1][k]) == Success(means[k]);
        }
      }
    }
  }

  /**
   * The test of a ledger minutia: both the reference patch and the query patch
   * are matched against the query skeleton, and the minutia is confirmed when both
   * vectors of means have variance exactly 0.
   */
  function Confirmed(score: Scorer, query: Grid, referencePatch: Grid, queryPatch: Grid): (r: Result<bool>)
    ensures r.Success? <==>
      MeansFor(score, query, referencePatch, Methods).Success? && MeansFor(score, query, queryPatch, Methods).Success?
    ensures r.Failure? ==> r.error == OpenCvError
  {
    var a :- MeansFor(score, query, referencePatch, Methods);
    var b :- MeansFor(score, query, queryPatch, Methods);
    Success(VarianceOf(a) == Real(0.0) && VarianceOf(b) == Real(0.0))
  }

  /** A minutia is confirmed exactly when both five-mean vectors are free of NaN and constant. */
  lemma ConfirmedIffConstantMeans(score: Scorer, query: Grid, referencePatch: Grid, queryPatch: Grid)
    requires MeansFor(score, query, referencePatch, Methods).Success?
    requires MeansFor(score, query, queryPatch, Methods).Success?
    ensures
      var a, b := MeansFor(score, query, referencePatch, Methods).value, MeansFor(score, query, queryPatch, Methods).value;
      Confirmed(score, query, referencePatch, queryPatch) == Success(true) <==>
        AllReal(a) && AllReal(b) && Constant(Reals(a)) && Constant(Reals(b))
  {
    var a, b := MeansFor(score, query, referencePatch, Methods).value, MeansFor(score, query, queryPatch, Methods).value;
    if AllReal(a) {
      VarianceZeroIff(Reals(a));
    }
    if AllReal(b) {
      VarianceZeroIff(Reals(b));
    }
  }

  lemma {:induction false} RowSumOfConstant(row: seq<int>, v: int)
    requires forall k :: 0 <= k < |row| ==> row[k] == v
    ensures RowSum(row) == |row| * v
    decreases |row|
  {
    if |row| > 0 {
      RowSumOfConstant(row[1..], v);
    }
  }

  /** Every pixel of g, in rows of any width, has grey level v. */
  predicate AllPixels(g: seq<seq<int>>, v: int) {
    forall r, k :: 0 <= r < |g| && 0 <= k < |g[r]| ==> g[r][k] == v
  }

  lemma {:induction false} GridSumOfConstant(g: Grid, v: int)
    requires AllPixels(g, v)
    ensures GridSum(g) == |g| * Width(g) * v
    decreases |g|
  {
    if |g| > 0 {
      RowSumOfConstant(g[0], v);
      var rest: Grid := g[1..];
      assert AllPixels(rest, v) by {
        assert forall r :: 0 <= r < |rest| ==> rest[r] == g[r + 1];
      }
      GridSumOfConstant(rest, v);
      assert |rest| == 0 || Width(rest) == Width(g);
    }
  }

  lemma SliceOfConstant(row: seq<int>, v: int, start: int, stop: int)
    requires forall k :: 0 <= k < |row| ==> row[k] == v
    ensures forall k :: 0 <= k < |Slice(row, start, stop)| ==> Slice(row, start, stop)[k] == v
  {
    var a, b := SliceBound(start, |row|), SliceBound(stop, |row|);
    if a < b {
      assert forall k :: 0 <= k < b - a ==> Slice(row, start, stop)[k] == row[a + k];
    }
  }

  /** Every window of an image of one grey level is made of that grey level. */
  lemma CropOfConstant(image: Grid, v: int, top: int, bottom: int, left: int, right: int)
    requires AllPixels(image, v)
    ensures AllPixels(Crop(image, top, bottom, left, right), v)
  {
    var rows := Slice(image, top, bottom);
    var a, b := SliceBound(top, |image|), SliceBound(bottom, |image|);
    assert forall r :: 0 <= r < |rows| ==> rows[r] == image[a + r];
    var c := Crop(image, top, bottom, left, right);
    forall r | 0 <= r < |c|
      ensures forall k :: 0 <= k < |c[r]| ==> c[r][k] == v
    {
      assert c[r] == Slice(rows[r], left, right);
      SliceOfConstant(rows[r], v, left, right);
    }
  }

  /** Every non-empty window of an image of one grey level has that grey level as its mean. */
  lemma UniformRegionMean(image: Grid, v: int, top: int, left: int, h: int, w: int)
    requires AllPixels(image, v)
    ensures RegionMean(image, top, left, h, w) in {NaN, Real(v as real)}
  {
    var region := Crop(image, top, top + h, left, left + w);
    if |region| > 0 && Width(region) > 0 {
      CropOfConstant(image, v, top, top + h, left, left + w);
      GridSumOfConstant(region, v);
      ScaledQuotient(|region| * Width(region), v);
    }
  }

  lemma ScaledQuotient(n: int, v: int)
    requires n > 0
    ensures (n * v) as real / n as real == v as real
  {
    assert (n * v) as real == n as real * v as real;
  }

  /**
   * A query skeleton of one grey level confirms every ledger minutia that OpenCV
   * accepts and whose five windows are non-empty: all means equal that grey level,
   * so both variances are 0, whatever the reference image looks like.
   */
  lemma UniformQueryConfirms(score: Scorer, query: Grid, v: int, referencePatch: Grid, queryPatch: Grid)
    requires AllPixels(query, v)
    requires MeansFor(score, query, referencePatch, Methods).Success?
    requires MeansFor(score, query, queryPatch, Methods).Success?
    requires AllReal(MeansFor(score, query, referencePatch, Methods).value)
    requires AllReal(MeansFor(score, query, queryPatch, Methods).value)
    ensures Confirmed(score, query, referencePatch, queryPatch) == Success(true)
  {
    var a, b := MeansFor(score, query, referencePatch, Methods).value, MeansFor(score, query, queryPatch, Methods).value;
    forall k | 0 <= k < |Methods|
      ensures a[k] == Real(v as real) && b[k] == Real(v as real)
    {
      var m := Methods[k];
      var ea, eb := score(m, query, referencePatch).value, score(m, query, queryPatch).value;
      var pa, pb := BestLocation(m, ea), BestLocation(m, eb);
      UniformRegionMean(query, v, pa.y, pa.x, |referencePatch|, Width(referencePatch));
      UniformRegionMean(query, v, pb.y, pb.x, |queryPatch|, Width(queryPatch));
    }
    ConfirmedIffConstantMeans(score, query, referencePatch, queryPatch);
  }
}
