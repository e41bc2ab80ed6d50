/**
 * Minutia extraction by the crossing number (crossing_number): a scan of the
 * skeleton's interior, five pixels away from every border, that classifies each
 * visited pixel from its eight neighbours, records bifurcations, marks each on the
 * image in place, and skips ahead after every minutia it finds.
 */
module Minutiae {
  import opened Images

  /**
   * A pixel and its neighbours in the order the scan reads them: p1 east,
   * p2 north-east, p3 north, p4 north-west, p5 west, p6 south-west, p7 south,
   * p8 south-east; p0 is the pixel itself.
   */
  datatype Ring = Ring(p0: int, p1: int, p2: int, p3: int, p4: int, p5: int, p6: int, p7: int, p8: int)

  /** The (row, column) offsets of p1 … p8 from the centre p0: counter-clockwise from the east neighbour. */
  const Around: seq<(int, int)> := [(0, 1), (-1, 1), (-1, 0), (-1, -1), (0, -1), (1, -1), (1, 0), (1, 1)]

  /** Two offsets one step apart, as the pixels of a ring follow each other. */
  predicate Adjacent(a: (int, int), b: (int, int)) {
    a != b && -1 <= a.0 - b.0 <= 1 && -1 <= a.1 - b.1 <= 1
  }

  /** p1 … p8 are the eight neighbours of the centre, each once, in a walk round it that ends next to where it began. */
  lemma AroundCircles()
    ensures |Around| == 8
    ensures forall k :: 0 <= k < 8 ==> Around[k] != (0, 0) && -1 <= Around[k].0 <= 1 && -1 <= Around[k].1 <= 1
    ensures forall k, l :: 0 <= k < l < 8 ==> Around[k] != Around[l]
    ensures forall k :: 0 <= k < 7 ==> Adjacent(Around[k], Around[k + 1])
    ensures Adjacent(Around[7], Around[0])
  {
  }

  function RingAt(image: array2<int>, i: int, j: int): (n: Ring)
    reads image
    requires 1 <= i < image.Length0 - 1 && 1 <= j < image.Length1 - 1
    ensures n.p0 == image[i, j]
    ensures forall k :: 0 <= k < 8 ==> Chain(n)[k] == image[i + Around[k].0, j + Around[k].1]
  {
    Ring(image[i, j], image[i, j + 1], image[i - 1, j + 1], image[i - 1, j], image[i - 1, j - 1],
         image[i, j - 1], image[i + 1, j - 1], image[i + 1, j], image[i + 1, j + 1])
  }

  /** The ring of (i, j) in a grid snapshot of the image, read in the same order. */
  function RingIn(g: Grid, i: int, j: int): (n: Ring)
    requires 1 <= i < |g| - 1 && 1 <= j < Width(g) - 1
    ensures n.p0 == g[i][j]
    ensures forall k :: 0 <= k < 8 ==> Chain(n)[k] == g[i + Around[k].0][j + Around[k].1]
  {
    Ring(g[i][j], g[i][j + 1], g[i - 1][j + 1], g[i - 1][j], g[i - 1][j - 1],
         g[i][j - 1], g[i + 1][j - 1], g[i + 1][j], g[i + 1][j + 1])
  }

  function Abs(v: int): nat {
    if v < 0 then -v else v
  }

  function AbsReal(v: real): real {
    if v < 0.0 then -v else v
  }

  /** One term of the crossing sum: |a/255 - b/255|, over the reals. */
  function Step(a: int, b: int): real {
    AbsReal(a as real / 255.0 - b as real / 255.0)
  }

  /** The neighbours p1, ..., p8 in scan order; the crossing sum runs over its seven consecutive pairs. */
  function Chain(n: Ring): (s: seq<int>)
    ensures |s| == 8 && s[0] == n.p1 && s[7] == n.p8
  {
    [n.p1, n.p2, n.p3, n.p4, n.p5, n.p6, n.p7, n.p8]
  }

  /** The sum of Step over the consecutive pairs of s. */
  function StepSum(s: seq<int>): real {
    if |s| < 2 then 0.0 else Step(s[0], s[1]) + StepSum(s[1..])
  }

  /** The scan's crossing number: half of |p1/255 - p2/255| + ... + |p7/255 - p8/255|. */
  function Crossing(n: Ring): real {
    0.5 * StepSum(Chain(n))
  }

  /** The sum of |a - b| over the consecutive pairs of s, on the raw pixels. */
  function AbsSum(s: seq<int>): nat {
    if |s| < 2 then 0 else Abs(s[0] - s[1]) + AbsSum(s[1..])
  }

  /** The crossing sum on the raw pixels: the seven chained differences, without p8-p1. */
  function ChainSum(n: Ring): nat {
    AbsSum(Chain(n))
  }

  lemma StepScales(a: int, b: int)
    ensures Step(a, b) == Abs(a - b) as real / 255.0
  {
    assert a as real / 255.0 - b as real / 255.0 == (a - b) as real / 255.0;
  }

  lemma {:induction false} StepSumScales(s: seq<int>)
    ensures StepSum(s) == AbsSum(s) as real / 255.0
    decreases |s|
  {
    if |s| >= 2 {
      StepScales(s[0], s[1]);
      StepSumScales(s[1..]);
    }
  }

  /** The crossing number is the integer chain sum scaled by 1/510. */
  lemma CrossingIsScaledChainSum(n: Ring)
    ensures Crossing(n) == ChainSum(n) as real / 510.0
  {
    StepSumScales(Chain(n));
  }

  datatype Kind = Termination | Bifurcation | Ordinary

  /** crossing == 1 is a termination, crossing == 3 a bifurcation; anything else is no minutia. */
  function Classify(n: Ring): (k: Kind)
    ensures k == Termination <==> ChainSum(n) == 510
    ensures k == Bifurcation <==> ChainSum(n) == 1530
  {
    CrossingIsScaledChainSum(n);
    var crossing := Crossing(n);
    if crossing == 1.0 then Termination
    else if crossing == 3.0 then Bifurcation
    else Ordinary
  }

  predicate IsBinaryPixel(v: int) {
    v == 0 || v == 255
  }

  /** The eight neighbours are all 0 or 255. */
  predicate IsBinaryRing(n: Ring) {
    forall k :: 0 <= k < 8 ==> IsBinaryPixel(Chain(n)[k])
  }

  function Differs(a: int, b: int): nat {
    if a != b then 1 else 0
  }

  /** How many consecutive pairs of s differ. */
  function Transitions(s: seq<int>): nat {
    if |s| < 2 then 0 else Differs(s[0], s[1]) + Transitions(s[1..])
  }

  /** How many of the seven chained pairs p1-p2, ..., p7-p8 differ. */
  function ChainTransitions(n: Ring): nat {
    Transitions(Chain(n))
  }

  lemma {:induction false} BinaryAbsSum(s: seq<int>)
    requires forall k :: 0 <= k < |s| ==> IsBinaryPixel(s[k])
    ensures AbsSum(s) == 255 * Transitions(s)
    decreases |s|
  {
    if |s| >= 2 {
      BinaryAbsSum(s[1..]);
    }
  }

  /**
   * On a {0, 255} skeleton the rule counts transitions: a bifurcation is a ring with
   * exactly six differing chained pairs, a termination one with exactly two. The
   * centre p0 plays no part.
   */
  lemma BinaryClassification(n: Ring)
    requires IsBinaryRing(n)
    ensures ChainSum(n) == 255 * ChainTransitions(n)
    ensures Classify(n) == Bifurcation <==> ChainTransitions(n) == 6
    ensures Classify(n) == Termination <==> ChainTransitions(n) == 2
    ensures Classify(n) == Classify(n.(p0 := 0)) == Classify(n.(p0 := 255))
  {
    BinaryAbsSum(Chain(n));
    assert Chain(n.(p0 := 0)) == Chain(n) == Chain(n.(p0 := 255));
  }

  /**
   * The pair p8-p1 closes the ring but is not summed: a {0, 255} ring whose
   * closed ring has six transitions (three ridges meeting) is not classified as a
   * bifurcation when p8 and p1 differ.
   */
  lemma OpenRingMissesClosedBifurcation(n: Ring)
    requires IsBinaryRing(n)
    requires ChainTransitions(n) + Differs(n.p8, n.p1) == 6
    requires n.p8 != n.p1
    ensures Classify(n) == Ordinary
  {
    BinaryClassification(n);
  }

  lemma {:induction false} ConstantAbsSum(s: seq<int>)
    requires forall k :: 0 <= k < |s| ==> s[k] == s[0]
    ensures AbsSum(s) == 0
    decreases |s|
  {
    if |s| >= 2 {
      assert s[1..][0] == s[1] == s[0];
      ConstantAbsSum(s[1..]);
    }
  }

  /** A ring of equal neighbours has no transitions and is no minutia. */
  lemma FlatRingIsOrdinary(n: Ring)
    requires n.p1 == n.p2 == n.p3 == n.p4 == n.p5 == n.p6 == n.p7 == n.p8
    ensures Classify(n) == Ordinary
  {
    ConstantAbsSum(Chain(n));
  }

  /** The scanned region: five pixels away from every border. */
  predicate Interior(p: Point, rows: int, cols: int) {
    5 <= p.y < rows - 5 && 5 <= p.x < cols - 5
  }

  /** q comes after p in the scan: on the same row at least 4 columns on, or at least 4 rows lower. */
  predicate Follows(p: Point, q: Point) {
    (q.y == p.y && q.x >= p.x + 4) || q.y >= p.y + 4
  }

  /** Every recorded point follows each one recorded before it. */
  predicate ScanOrdered(ps: seq<Point>) {
    forall a, b :: 0 <= a < b < |ps| ==> Follows(ps[a], ps[b])
  }

  /** A point that follows the last recorded one follows them all. */
  lemma ScanOrderedAppend(ps: seq<Point>, p: Point)
    requires ScanOrdered(ps)
    requires ps != [] ==> Follows(ps[|ps| - 1], p)
    ensures ScanOrdered(ps + [p])
  {
    var qs := ps + [p];
    forall a, b | 0 <= a < b < |qs| ensures Follows(qs[a], qs[b]) {
      if b < |ps| {
        assert qs[a] == ps[a] && qs[b] == ps[b];
      } else if a < |ps| - 1 {
        assert Follows(ps[a], ps[|ps| - 1]);
      }
    }
  }

  /** (r, c) lies in the marker window of some recorded minutia. */
  predicate NearAny(ps: seq<Point>, r: int, c: int) {
    exists k :: 0 <= k < |ps| && InWindow(ps[k], r, c)
  }

  /** q is visited before p in the row-major scan. */
  predicate ScanBefore(q: Point, p: Point) {
    q.y < p.y || (q.y == p.y && q.x < p.x)
  }

  /** No marker drawn around q reaches the ring of p. */
  predicate Far(q: Point, p: Point) {
    Abs(q.x - p.x) > 7 || Abs(q.y - p.y) > 7
  }

  /** Every point of marked visited before p is far from p. */
  predicate EarlierFar(marked: seq<Point>, p: Point) {
    forall m :: 0 <= m < |marked| && ScanBefore(marked[m], p) ==> Far(marked[m], p)
  }

  /** Every scanned pixel of g visited before (y, x) has an ordinary ring. */
  ghost predicate OrdinaryBefore(g: Grid, y: int, x: int) {
    forall r, c :: Interior(Point(c, r), |g|, Width(g)) && ScanBefore(Point(c, r), Point(x, y)) ==>
      Classify(RingIn(g, r, c)) == Ordinary
  }

  /** No scanned pixel of g has a termination or bifurcation ring. */
  ghost predicate NoMinutia(g: Grid) {
    OrdinaryBefore(g, |g|, 0)
  }

  /** A picture of one value holds no minutia. */
  lemma UniformHasNoMinutia(image: array2<int>)
    requires Uniform(image)
    ensures NoMinutia(Pixels(image))
  {
    var g := Pixels(image);
    forall r, c | Interior(Point(c, r), |g|, Width(g))
      ensures Classify(RingIn(g, r, c)) == Ordinary
    {
      FlatRingIsOrdinary(RingIn(g, r, c));
    }
  }

  /** Once the scan has passed the last scanned row, every scanned pixel was ordinary. */
  lemma OrdinaryBeforeCovers(g: Grid, y: int, x: int)
    requires OrdinaryBefore(g, y, x)
    requires y >= |g| - 5
    ensures NoMinutia(g)
  {
  }

  /** The detected points whose ring was classified a bifurcation, in order. */
  function Bifurcations(ps: seq<Point>, rings: seq<Ring>): (bs: seq<Point>)
    requires |ps| == |rings|
    ensures |bs| <= |ps|
  {
    if |ps| == 0 then []
    else
      Bifurcations(ps[..|ps| - 1], rings[..|rings| - 1]) +
      (if Classify(rings[|rings| - 1]) == Bifurcation then [ps[|ps| - 1]] else [])
  }

  lemma DropLast<T>(s: seq<T>, x: T)
    ensures (s + [x])[..|s|] == s
  {
  }

  lemma BifurcationsExtends(ps: seq<Point>, rings: seq<Ring>, p: Point, n: Ring)
    requires |ps| == |rings|
    ensures Bifurcations(ps + [p], rings + [n]) ==
      Bifurcations(ps, rings) + (if Classify(n) == Bifurcation then [p] else [])
  {
    DropLast(ps, p);
    DropLast(rings, n);
  }

  /** Outside the markers around found, the image still holds the pixels of orig. */
  ghost predicate Unmarked(image: array2<int>, orig: Grid, found: seq<Point>)
    reads image
  {
    |orig| == image.Length0 && (image.Length0 > 0 ==> Width(orig) == image.Length1) &&
    forall r, c :: InImage(image, r, c) && !NearAny(found, r, c) ==> image[r, c] == orig[r][c]
  }

  /** Every pixel of the image is the one of orig or black. */
  ghost predicate Darkened(image: array2<int>, orig: Grid)
    reads image
    requires |orig| == image.Length0 && (image.Length0 > 0 ==> Width(orig) == image.Length1)
  {
    forall r, c :: InImage(image, r, c) ==> image[r, c] == orig[r][c] || image[r, c] == 0
  }

  /**
   * The record of detected points: every ring is a minutia, every point lies in
   * the scanned region and follows the point detected before it.
   */
  ghost predicate Recorded(rows: int, cols: int, detected: seq<Point>, rings: seq<Ring>)
    decreases |detected|
  {
    |detected| == |rings| &&
    (|detected| > 0 ==>
      var n := |detected| - 1;
      Recorded(rows, cols, detected[..n], rings[..n]) &&
      Interior(detected[n], rows, cols) && Classify(rings[n]) != Ordinary &&
      (n > 0 ==> Follows(detected[n - 1], detected[n])))
  }

  /** What the record says of each of its points, and their order. */
  lemma {:induction false} RecordedFacts(rows: int, cols: int, detected: seq<Point>, rings: seq<Ring>)
    requires Recorded(rows, cols, detected, rings)
    ensures forall k :: 0 <= k < |detected| ==> Interior(detected[k], rows, cols) && Classify(rings[k]) != Ordinary
    ensures ScanOrdered(detected)
    decreases |detected|
  {
    if |detected| > 0 {
      var n := |detected| - 1;
      var pre, rs := detected[..n], rings[..n];
      RecordedFacts(rows, cols, pre, rs);
      ScanOrderedAppend(pre, detected[n]);
      assert detected == pre + [detected[n]];
      forall k | 0 <= k < n ensures Interior(detected[k], rows, cols) && Classify(rings[k]) != Ordinary {
        assert detected[k] == pre[k] && rings[k] == rs[k];
      }
    }
  }

  /** When the last point of an ordered record was visited before q, so were all of them. */
  lemma OrderedBefore(ps: seq<Point>, q: Point)
    requires ScanOrdered(ps)
    requires ps != [] ==> ScanBefore(ps[|ps| - 1], q)
    ensures forall k :: 0 <= k < |ps| ==> ScanBefore(ps[k], q)
  {
    forall k | 0 <= k < |ps| ensures ScanBefore(ps[k], q) {
      if k < |ps| - 1 {
        assert Follows(ps[k], ps[|ps| - 1]);
      }
    }
  }

  /** The bifurcations are detected points, in the order of detection. */
  lemma {:induction false} BifurcationsOrdered(ps: seq<Point>, rings: seq<Ring>)
    requires |ps| == |rings| && ScanOrdered(ps)
    ensures forall k :: 0 <= k < |Bifurcations(ps, rings)| ==> Bifurcations(ps, rings)[k] in ps
    ensures ScanOrdered(Bifurcations(ps, rings))
    decreases |ps|
  {
    if |ps| > 0 {
      var n := |ps| - 1;
      var pre := ps[..n];
      var bs := Bifurcations(pre, rings[..n]);
      assert ScanOrdered(pre) by {
        forall a, b | 0 <= a < b < |pre| ensures Follows(pre[a], pre[b]) {
          assert pre[a] == ps[a] && pre[b] == ps[b];
        }
      }
      BifurcationsOrdered(pre, rings[..n]);
      if Classify(rings[n]) == Bifurcation {
        if bs != [] {
          var a :| 0 <= a < |pre| && pre[a] == bs[|bs| - 1];
          assert Follows(ps[a], ps[n]);
        }
        ScanOrderedAppend(bs, ps[n]);
        var bs2 := bs + [ps[n]];
        forall k | 0 <= k < |bs2| ensures bs2[k] in ps {
          if k < |bs| {
            assert bs2[k] == bs[k] && bs[k] in pre;
          }
        }
      } else {
        forall k | 0 <= k < |bs| ensures bs[k] in ps {
          assert bs[k] in pre;
        }
      }
    }
  }

  /**
   * The record of the scan with (j, i) the next pixel to visit: the bifurcations
   * are the detected points whose ring is one, and the last point was visited
   * before (j, i).
   */
  ghost predicate Tally(rows: int, cols: int, j: int, i: int, found: seq<Point>, detected: seq<Point>, rings: seq<Ring>) {
    Recorded(rows, cols, detected, rings) && found == Bifurcations(detected, rings) &&
    (detected != [] ==> ScanBefore(detected[|detected| - 1], Point(j, i)))
  }

  /** Every point of the record, and so every bifurcation, was visited before (j, i). */
  lemma TallyBefore(rows: int, cols: int, j: int, i: int, found: seq<Point>, detected: seq<Point>, rings: seq<Ring>)
    requires Tally(rows, cols, j, i, found, detected, rings)
    ensures forall k :: 0 <= k < |detected| ==> ScanBefore(detected[k], Point(j, i))
    ensures forall m :: 0 <= m < |found| ==> ScanBefore(found[m], Point(j, i))
  {
    RecordedFacts(rows, cols, detected, rings);
    OrderedBefore(detected, Point(j, i));
    BifurcationsOrdered(detected, rings);
  }

  /**
   * Each detected ring is the one of orig at its point, unless a marker around
   * an earlier bifurcation came within reach of it.
   */
  ghost predicate Faithful(orig: Grid, found: seq<Point>, detected: seq<Point>, rings: seq<Ring>) {
    |detected| == |rings| &&
    forall k :: 0 <= k < |detected| ==>
      Interior(detected[k], |orig|, Width(orig)) &&
      (EarlierFar(found, detected[k]) ==> rings[k] == RingIn(orig, detected[k].y, detected[k].x))
  }

  /** A marker drawn around an earlier point far from p does not reach the ring of p. */
  lemma FarFromRing(marked: seq<Point>, p: Point, r: int, c: int)
    requires EarlierFar(marked, p)
    requires forall m :: 0 <= m < |marked| ==> ScanBefore(marked[m], p)
    requires Abs(r - p.y) <= 1 && Abs(c - p.x) <= 1
    ensures !NearAny(marked, r, c)
  {
    forall m | 0 <= m < |marked| ensures !InWindow(marked[m], r, c) {
      assert Far(marked[m], p);
    }
  }

  /** The ring read at p is the one of orig when no earlier marker reached it. */
  lemma RingUnmarked(image: array2<int>, orig: Grid, found: seq<Point>, p: Point)
    requires Unmarked(image, orig, found)
    requires 1 <= p.y < image.Length0 - 1 && 1 <= p.x < image.Length1 - 1
    requires EarlierFar(found, p)
    requires forall m :: 0 <= m < |found| ==> ScanBefore(found[m], p)
    ensures RingAt(image, p.y, p.x) == RingIn(orig, p.y, p.x)
  {
    forall r, c | p.y - 1 <= r <= p.y + 1 && p.x - 1 <= c <= p.x + 1
      ensures image[r, c] == orig[r][c]
    {
      FarFromRing(found, p, r, c);
    }
  }

  /** A point visited before p stays far from p when later points are marked. */
  lemma EarlierFarAppend(marked: seq<Point>, q: Point, p: Point)
    requires !ScanBefore(q, p)
    ensures EarlierFar(marked + [q], p) <==> EarlierFar(marked, p)
  {
    if EarlierFar(marked + [q], p) {
      forall m | 0 <= m < |marked| && ScanBefore(marked[m], p) ensures Far(marked[m], p) {
        assert (marked + [q])[m] == marked[m];
      }
    }
  }

  /** The record stays true as the scan moves on. */
  lemma TallyMoves(rows: int, cols: int, j: int, i: int, j2: int, i2: int,
                   found: seq<Point>, detected: seq<Point>, rings: seq<Ring>)
    requires Tally(rows, cols, j, i, found, detected, rings)
    requires i < i2 || (i == i2 && j <= j2)
    ensures Tally(rows, cols, j2, i2, found, detected, rings)
  {
  }

  /** Recording the minutia at p = (j, i) with ring n, then skipping four columns. */
  lemma TallyRecords(rows: int, cols: int, j: int, i: int, found: seq<Point>, detected: seq<Point>, rings: seq<Ring>,
                     n: Ring, marks: seq<Point>)
    requires Tally(rows, cols, j, i, found, detected, rings)
    requires Interior(Point(j, i), rows, cols) && Classify(n) != Ordinary
    requires detected != [] ==> Follows(detected[|detected| - 1], Point(j, i))
    requires marks == if Classify(n) == Bifurcation then [Point(j, i)] else []
    ensures Tally(rows, cols, j + 4, i, found + marks, detected + [Point(j, i)], rings + [n])
  {
    var p := Point(j, i);
    BifurcationsExtends(detected, rings, p, n);
    DropLast(detected, p);
    DropLast(rings, n);
  }

  /** Recording the minutia at p keeps every detected ring tied to orig. */
  lemma FaithfulRecords(orig: Grid, found: seq<Point>, detected: seq<Point>, rings: seq<Ring>, p: Point, n: Ring,
                        marks: seq<Point>)
    requires Faithful(orig, found, detected, rings)
    requires Interior(p, |orig|, Width(orig))
    requires forall k :: 0 <= k < |detected| ==> ScanBefore(detected[k], p)
    requires EarlierFar(found, p) ==> n == RingIn(orig, p.y, p.x)
    requires marks == [] || marks == [p]
    ensures Faithful(orig, found + marks, detected + [p], rings + [n])
  {
    var d2, r2 := detected + [p], rings + [n];
    forall k | 0 <= k < |d2| ensures Interior(d2[k], |orig|, Width(orig)) &&
      (EarlierFar(found + marks, d2[k]) ==> r2[k] == RingIn(orig, d2[k].y, d2[k].x))
    {
      if marks == [p] {
        EarlierFarAppend(found, p, d2[k]);
      } else {
        assert found + marks == found;
      }
      if k < |detected| {
        assert d2[k] == detected[k] && r2[k] == rings[k];
      }
    }
  }

  /** The last recorded point is at least four rows up, or earlier on row i by at least four columns. */
  predicate Spaced(ps: seq<Point>, j: int, i: int, hit: bool) {
    ps != [] ==> ps[|ps| - 1].y + 4 <= i || (ps[|ps| - 1].y == i && ps[|ps| - 1].x + 4 <= j && hit)
  }

  lemma SpacedRecords(ps: seq<Point>, j: int, i: int, hit: bool)
    requires Spaced(ps, j, i, hit)
    ensures Spaced(ps + [Point(j, i)], j + 4, i, true)
  {
  }

  /** An ordinary ring at (y, x) extends the ordinary prefix of the scan by one pixel. */
  lemma OrdinaryStep(g: Grid, y: int, x: int)
    requires OrdinaryBefore(g, y, x)
    requires Interior(Point(x, y), |g|, Width(g)) ==> Classify(RingIn(g, y, x)) == Ordinary
    ensures OrdinaryBefore(g, y, x + 1)
  {
  }

  /** cv2.rectangle around the bifurcation p, which joins the marked points. */
  method MarkFound(image: array2<int>, ghost orig: Grid, found: seq<Point>, p: Point)
    requires Unmarked(image, orig, found) && Darkened(image, orig)
    modifies image
    ensures Unmarked(image, orig, found + [p]) && Darkened(image, orig)
  {
    var marked := found + [p];
    Mark(image, p);
    forall r, c | InImage(image, r, c) && !NearAny(marked, r, c)
      ensures image[r, c] == orig[r][c]
    {
      assert marked[|found|] == p;
      forall k | 0 <= k < |found| ensures !InWindow(found[k], r, c) {
        assert marked[k] == found[k];
      }
    }
  }

  /** The first detected point: a minutia ring of orig with only ordinary rings before it in the scan. */
  ghost predicate FirstFound(orig: Grid, detected: seq<Point>, rings: seq<Ring>) {
    |detected| > 0 && |rings| > 0 &&
    Interior(detected[0], |orig|, Width(orig)) &&
    rings[0] == RingIn(orig, detected[0].y, detected[0].x) &&
    OrdinaryBefore(orig, detected[0].y, detected[0].x)
  }

  /** The pixels of the image as a grid, known by their values. */
  ghost method Snapshot(image: array2<int>) returns (g: Grid)
    ensures |g| == image.Length0 && (image.Length0 > 0 ==> Width(g) == image.Length1)
    ensures forall r, c :: InImage(image, r, c) ==> g[r][c] == image[r, c]
  {
    g := Pixels(image);
  }

  /**
   * What the scan of orig knows before visiting (j, i): the counts match the
   * record, the record is faithful to orig and spaced as the skips make it,
   * and the first minutia, if any, is the first one of orig.
   */
  ghost predicate Scanning(orig: Grid, j: int, i: int, hit: bool, minutiae: nat, bifurcations: nat,
                           found: seq<Point>, detected: seq<Point>, rings: seq<Ring>) {
    minutiae == |detected| && bifurcations == |found| &&
    Tally(|orig|, Width(orig), j, i, found, detected, rings) &&
    Faithful(orig, found, detected, rings) &&
    Spaced(detected, j, i, hit) &&
    (minutiae == 0 ==> !hit && OrdinaryBefore(orig, i, j)) &&
    (minutiae > 0 ==> FirstFound(orig, detected, rings))
  }

  lemma ScanningBefore(orig: Grid, j: int, i: int, hit: bool, minutiae: nat, bifurcations: nat,
                       found: seq<Point>, detected: seq<Point>, rings: seq<Ring>)
    requires Scanning(orig, j, i, hit, minutiae, bifurcations, found, detected, rings)
    ensures forall m :: 0 <= m < |found| ==> ScanBefore(found[m], Point(j, i))
  {
    TallyBefore(|orig|, Width(orig), j, i, found, detected, rings);
  }

  /** The scan of a row starts at column 5, past the pixels that are not scanned. */
  lemma ScanningRowStart(orig: Grid, i: int, minutiae: nat, bifurcations: nat,
                         found: seq<Point>, detected: seq<Point>, rings: seq<Ring>)
    requires Scanning(orig, 0, i, false, minutiae, bifurcations, found, detected, rings)
    ensures Scanning(orig, 5, i, false, minutiae, bifurcations, found, detected, rings)
  {
    TallyMoves(|orig|, Width(orig), 0, i, 5, i, found, detected, rings);
  }

  /** The ring read at (j, i) during the scan is the one of orig when no earlier marker reached it. */
  lemma ScanningReads(image: array2<int>, orig: Grid, j: int, i: int, hit: bool, minutiae: nat, bifurcations: nat,
                      found: seq<Point>, detected: seq<Point>, rings: seq<Ring>)
    requires Scanning(orig, j, i, hit, minutiae, bifurcations, found, detected, rings)
    requires Unmarked(image, orig, found)
    requires 1 <= i < image.Length0 - 1 && 1 <= j < image.Length1 - 1
    ensures EarlierFar(found, Point(j, i)) ==> RingAt(image, i, j) == RingIn(orig, i, j)
  {
    if EarlierFar(found, Point(j, i)) {
      ScanningBefore(orig, j, i, hit, minutiae, bifurcations, found, detected, rings);
      RingUnmarked(image, orig, found, Point(j, i));
    }
  }

  /** Visiting an ordinary pixel moves the scan one column on. */
  lemma ScanningSkips(orig: Grid, j: int, i: int, hit: bool, minutiae: nat, bifurcations: nat,
                      found: seq<Point>, detected: seq<Point>, rings: seq<Ring>, n: Ring)
    requires Scanning(orig, j, i, hit, minutiae, bifurcations, found, detected, rings)
    requires Interior(Point(j, i), |orig|, Width(orig))
    requires EarlierFar(found, Point(j, i)) ==> n == RingIn(orig, i, j)
    requires Classify(n) == Ordinary
    ensures Scanning(orig, j + 1, i, hit, minutiae, bifurcations, found, detected, rings)
  {
    TallyMoves(|orig|, Width(orig), j, i, j + 1, i, found, detected, rings);
    if minutiae == 0 {
      assert found == [];
      OrdinaryStep(orig, i, j);
    }
  }

  /** Visiting a minutia records it and moves the scan four columns on. */
  lemma ScanningRecords(orig: Grid, j: int, i: int, hit: bool, minutiae: nat, bifurcations: nat,
                        found: seq<Point>, detected: seq<Point>, rings: seq<Ring>, n: Ring, marks: seq<Point>)
    requires Scanning(orig, j, i, hit, minutiae, bifurcations, found, detected, rings)
    requires Interior(Point(j, i), |orig|, Width(orig))
    requires EarlierFar(found, Point(j, i)) ==> n == RingIn(orig, i, j)
    requires Classify(n) != Ordinary
    requires marks == if Classify(n) == Bifurcation then [Point(j, i)] else []
    ensures Scanning(orig, j + 4, i, true, minutiae + 1, bifurcations + |marks|,
                     found + marks, detected + [Point(j, i)], rings + [n])
  {
    var p := Point(j, i);
    TallyRecords(|orig|, Width(orig), j, i, found, detected, rings, n, marks);
    TallyBefore(|orig|, Width(orig), j, i, found, detected, rings);
    FaithfulRecords(orig, found, detected, rings, p, n, marks);
    SpacedRecords(detected, j, i, hit);
    if minutiae == 0 {
      assert found == [] && EarlierFar(found, p);
    } else {
      assert (detected + [p])[0] == detected[0] && (rings + [n])[0] == rings[0];
    }
  }

  /** Leaving row i: one row down, or four after a row that held a minutia. */
  lemma ScanningNextRow(orig: Grid, j: int, i: int, hit: bool, minutiae: nat, bifurcations: nat,
                        found: seq<Point>, detected: seq<Point>, rings: seq<Ring>)
    requires Scanning(orig, j, i, hit, minutiae, bifurcations, found, detected, rings)
    requires j >= Width(orig) - 5
    ensures Scanning(orig, 0, if hit then i + 4 else i + 1, false, minutiae, bifurcations, found, detected, rings)
  {
    TallyMoves(|orig|, Width(orig), j, i, 0, if hit then i + 4 else i + 1, found, detected, rings);
  }

  /**
   * Past the last scanned row, the record tells whether orig holds a minutia,
   * and its points are ordered minutiae of the scanned region.
   */
  lemma ScanningEnds(orig: Grid, i: int, minutiae: nat, bifurcations: nat,
                     found: seq<Point>, detected: seq<Point>, rings: seq<Ring>)
    requires Scanning(orig, 0, i, false, minutiae, bifurcations, found, detected, rings)
    requires i >= |orig| - 5
    ensures minutiae == |detected| == |rings| && bifurcations == |found|
    ensures found == Bifurcations(detected, rings)
    ensures forall k :: 0 <= k < |rings| ==> Classify(rings[k]) != Ordinary
    ensures Faithful(orig, found, detected, rings)
    ensures ScanOrdered(detected)
    ensures forall k :: 0 <= k < |found| ==> Interior(found[k], |orig|, Width(orig))
    ensures ScanOrdered(found)
    ensures minutiae == 0 <==> NoMinutia(orig)
    ensures minutiae > 0 ==> FirstFound(orig, detected, rings)
  {
    RecordedFacts(|orig|, Width(orig), detected, rings);
    BifurcationsOrdered(detected, rings);
    forall k | 0 <= k < |found| ensures Interior(found[k], |orig|, Width(orig)) {
      var m :| 0 <= m < |detected| && detected[m] == found[k];
    }
    if minutiae == 0 {
      OrdinaryBeforeCovers(orig, i, 0);
    } else {
      assert ScanBefore(detected[0], Point(0, |orig|));
    }
  }

  /** One step of the inner loop of crossing_number: the pixel (j, i) is classified and, when it is a minutia, recorded. */
  method ScanPixel(image: array2<int>, ghost orig: Grid, i: int, j0: int, hit0: bool,
                   minutiae0: nat, bifurcations0: nat, found0: seq<Point>, ghost detected0: seq<Point>, ghost rings0: seq<Ring>)
    returns (minutiae: nat, bifurcations: nat, found: seq<Point>, ghost detected: seq<Point>, ghost rings: seq<Ring>,
             j: int, hit: bool)
    requires 5 <= i < image.Length0 - 5 && 5 <= j0 < image.Length1 - 5
    requires Scanning(orig, j0, i, hit0, minutiae0, bifurcations0, found0, detected0, rings0)
    requires Unmarked(image, orig, found0) && Darkened(image, orig)
    modifies image
    ensures j0 < j
    ensures Scanning(orig, j, i, hit, minutiae, bifurcations, found, detected, rings)
    ensures Unmarked(image, orig, found) && Darkened(image, orig)
  {
    minutiae, bifurcations, found, detected, rings, j, hit := minutiae0, bifurcations0, found0, detected0, rings0, j0, hit0;
    var p := Point(j, i);
    var ring := RingAt(image, i, j);
    ScanningReads(image, orig, j, i, hit, minutiae, bifurcations, found, detected, rings);
    var kind := Classify(ring);
    if kind == Termination || kind == Bifurcation {
      var marks := if kind == Bifurcation then [p] else [];
      ScanningRecords(orig, j, i, hit, minutiae, bifurcations, found, detected, rings, ring, marks);
      if kind == Bifurcation {
        MarkFound(image, orig, found, p);
      } else {
        assert found + marks == found;
      }
      minutiae, bifurcations, found := minutiae + 1, bifurcations + |marks|, found + marks;
      detected, rings := detected + [p], rings + [ring];
      j, hit := j + 4, true;
    } else {
      ScanningSkips(orig, j, i, hit, minutiae, bifurcations, found, detected, rings, ring);
      j := j + 1;
    }
  }

  /**
   * The inner loop of crossing_number on row i: the pixels from column 5 on are
   * classified, minutiae recorded, bifurcations marked, and the scan skips four
   * columns after each minutia; hit says whether the row held one.
   */
  method ScanRow(image: array2<int>, ghost orig: Grid, i: int,
                 minutiae0: nat, bifurcations0: nat, found0: seq<Point>, ghost detected0: seq<Point>, ghost rings0: seq<Ring>)
    returns (minutiae: nat, bifurcations: nat, found: seq<Point>, ghost detected: seq<Point>, ghost rings: seq<Ring>,
             hit: bool)
    requires 5 <= i < image.Length0 - 5
    requires Scanning(orig, 5, i, false, minutiae0, bifurcations0, found0, detected0, rings0)
    requires Unmarked(image, orig, found0) && Darkened(image, orig)
    modifies image
    ensures Scanning(orig, 0, if hit then i + 4 else i + 1, false, minutiae, bifurcations, found, detected, rings)
    ensures Unmarked(image, orig, found) && Darkened(image, orig)
  {
    var cols := image.Length1;
    minutiae, bifurcations, found, detected, rings := minutiae0, bifurcations0, found0, detected0, rings0;
    var j := 5;
    hit := false;
    while j < cols - 5
      invariant 5 <= j
      invariant Scanning(orig, j, i, hit, minutiae, bifurcations, found, detected, rings)
      invariant Unmarked(image, orig, found) && Darkened(image, orig)
    {
      minutiae, bifurcations, found, detected, rings, j, hit :=
        ScanPixel(image, orig, i, j, hit, minutiae, bifurcations, found, detected, rings);
    }
    ScanningNextRow(orig, j, i, hit, minutiae, bifurcations, found, detected, rings);
  }

  /**
   * crossing_number: the counts of minutiae and of bifurcations, and the
   * bifurcations (x = column, y = row) in the order found. The image is marked
   * in place around each bifurcation as it is found, and later reads see the
   * marks. The ghost outputs are every detected point and the ring read there:
   * a ring is the one of the original image unless an earlier marker came within
   * reach, there are minutiae exactly when the original image has a minutia
   * ring, and the first one detected is the first such ring in the scan.
   */
  method CrossingNumber(image: array2<int>)
    returns (minutiae: nat, bifurcations: nat, found: seq<Point>, ghost detected: seq<Point>, ghost rings: seq<Ring>)
    modifies image
    ensures minutiae == |detected| == |rings| && bifurcations == |found|
    ensures found == Bifurcations(detected, rings)
    ensures forall k :: 0 <= k < |rings| ==> Classify(rings[k]) != Ordinary
    ensures Faithful(old(Pixels(image)), found, detected, rings)
    ensures ScanOrdered(detected)
    ensures forall k :: 0 <= k < |found| ==> Interior(found[k], image.Length0, image.Length1)
    ensures ScanOrdered(found)
    ensures minutiae == 0 <==> NoMinutia(old(Pixels(image)))
    ensures minutiae > 0 ==> FirstFound(old(Pixels(image)), detected, rings)
    ensures forall r, c :: InImage(image, r, c) && !NearAny(found, r, c) ==> image[r, c] == old(image[r, c])
    ensures forall r, c :: InImage(image, r, c) ==> image[r, c] == old(image[r, c]) || image[r, c] == 0
  {
    var rows := image.Length0;
    ghost var orig := Snapshot(image);
    SameGrid(orig, Pixels(image));
    minutiae, bifurcations, found, detected, rings := 0, 0, [], [], [];
    var i := 5;
    while i < rows - 5
      invariant 5 <= i
      invariant Scanning(orig, 0, i, false, minutiae, bifurcations, found, detected, rings)
      invariant Unmarked(image, orig, found) && Darkened(image, orig)
    {
      ScanningRowStart(orig, i, minutiae, bifurcations, found, detected, rings);
      var hit;
      minutiae, bifurcations, found, detected, rings, hit := ScanRow(image, orig, i, minutiae, bifurcations, found, detected, rings);
      if !hit {
        i := i + 1;
      } else {
        i := i + 4;
      }
    }
    ScanningEnds(orig, i, minutiae, bifurcations, found, detected, rings);
  }
}
