/**
 * Grey-level images. The pure parts of the pipeline see an image as a rectangular
 * `Grid` of rows; the parts that draw on an image in place (the minutia scan, the
 * gallery comparison) hold it in an `array2<int>` indexed [row, column].
 */
module Images {

  predicate IsRect(g: seq<seq<int>>) {
    forall i :: 0 <= i < |g| ==> |g[i]| == |g[0]|
  }

  /** A row-major grid of pixels, every row of the same width. */
  type Grid = g: seq<seq<int>> | IsRect(g)

  function Width(g: Grid): nat {
    if |g| == 0 then 0 else |g[0]|
  }

  /** Python's reading of the slice bound v on a sequence of length n: negative counts from the end, then clamped. */
  function SliceBound(v: int, n: nat): (b: nat)
    ensures b <= n
    ensures 0 <= v <= n ==> b == v
  {
    if v < 0 then (if v + n < 0 then 0 else v + n)
    else if v > n then n
    else v
  }

  /** s[start:stop] in Python. */
  function Slice<T>(s: seq<T>, start: int, stop: int): (t: seq<T>)
    ensures 0 <= start <= stop <= |s| ==> t == s[start..stop]
  {
    var a, b := SliceBound(start, |s|), SliceBound(stop, |s|);
    if a < b then s[a..b] else []
  }

  /** numpy's g[top:bottom, left:right]: both axes sliced the Python way. */
  function Crop(g: Grid, top: int, bottom: int, left: int, right: int): (c: Grid)
    ensures 0 <= top <= bottom <= |g| && 0 <= left <= right <= Width(g) ==>
      |c| == bottom - top &&
      forall r, k :: 0 <= r < |c| && 0 <= k < right - left ==> |c[r]| == right - left && c[r][k] == g[top + r][left + k]
  {
    var rows := Slice(g, top, bottom);
    assert forall r :: 0 <= r < |rows| ==> |rows[r]| == Width(g);
    seq(|rows|, r requires 0 <= r < |rows| => Slice(rows[r], left, right))
  }

  /** A pixel position as OpenCV writes it: x is the column, y the row. */
  datatype Point = Point(x: int, y: int)

  predicate InImage(a: array2<int>, r: int, c: int) {
    0 <= r < a.Length0 && 0 <= c < a.Length1
  }

  /** The contents of an image array as a grid, for the functions that only read it. */
  function Pixels(a: array2<int>): (g: Grid)
    reads a
    ensures |g| == a.Length0 && (a.Length0 > 0 ==> Width(g) == a.Length1)
    ensures forall r, c :: InImage(a, r, c) ==> g[r][c] == a[r, c]
  {
    seq(a.Length0, r requires 0 <= r < a.Length0 reads a =>
      seq(a.Length1, c requires 0 <= c < a.Length1 reads a => a[r, c]))
  }

  /** Two grids of the same shape and pixels are equal. */
  lemma SameGrid(g: Grid, h: Grid)
    requires |g| == |h| && Width(g) == Width(h)
    requires forall r, c :: 0 <= r < |g| && 0 <= c < Width(g) ==> g[r][c] == h[r][c]
    ensures g == h
  {
    forall r | 0 <= r < |g| ensures g[r] == h[r] {
      assert |g[r]| == Width(g) && |h[r]| == Width(h);
    }
  }

  /** All pixels of the image have one value. */
  ghost predicate Uniform(a: array2<int>)
    reads a
  {
    forall r, c :: InImage(a, r, c) ==> a[r, c] == a[0, 0]
  }

  /** Every pixel is an 8-bit intensity. */
  ghost predicate Is8Bit(a: array2<int>)
    reads a
  {
    forall r, c :: InImage(a, r, c) ==> 0 <= a[r, c] <= 255
  }

  /**
   * The pixels that cv2.rectangle((x-5, y-5), (x+5, y+5), thickness 2) may paint:
   * the 11x11 square around p, widened by one pixel for the line thickness.
   */
  predicate InWindow(p: Point, r: int, c: int) {
    p.y - 6 <= r <= p.y + 6 && p.x - 6 <= c <= p.x + 6
  }

  /**
   * Draws the marker square around p. Its colour (0, 0, 255) has 0 as its first
   * component, which is what a one-channel image receives. Which pixels of the
   * window are painted is OpenCV's business; callers rely only on this contract:
   * nothing outside the window changes, and a changed pixel becomes 0.
   */
  method Mark(image: array2<int>, p: Point)
    modifies image
    ensures forall r, c :: InImage(image, r, c) ==>
      image[r, c] == old(image[r, c]) || (InWindow(p, r, c) && image[r, c] == 0)
  {
    var k := -5;
    while k <= 5
      invariant -5 <= k <= 6
      invariant forall r, c :: InImage(image, r, c) ==>
        image[r, c] == old(image[r, c]) || (InWindow(p, r, c) && image[r, c] == 0)
    {
      if InImage(image, p.y - 5, p.x + k) { image[p.y - 5, p.x + k] := 0; }
      if InImage(image, p.y + 5, p.x + k) { image[p.y + 5, p.x + k] := 0; }
      if InImage(image, p.y + k, p.x - 5) { image[p.y + k, p.x - 5] := 0; }
      if InImage(image, p.y + k, p.x + 5) { image[p.y + k, p.x + 5] := 0; }
      k := k + 1;
    }
  }

  /** numpy's `copy()`: a fresh array with the same pixels. */
  method Copy(a: array2<int>) returns (b: array2<int>)
    ensures fresh(b) && b.Length0 == a.Length0 && b.Length1 == a.Length1
    ensures forall r, c :: InImage(a, r, c) ==> b[r, c] == a[r, c]
  {
    b := new int[a.Length0, a.Length1];
    var i := 0;
    while i < a.Length0
      invariant 0 <= i <= a.Length0
      invariant forall r, c :: 0 <= r < i && 0 <= c < a.Length1 ==> b[r, c] == a[r, c]
    {
      var j := 0;
      while j < a.Length1
        invariant 0 <= j <= a.Length1
        invariant forall r, c :: 0 <= r < i && 0 <= c < a.Length1 ==> b[r, c] == a[r, c]
        invariant forall c :: 0 <= c < j ==> b[i, c] == a[i, c]
      {
        b[i, j] := a[i, j];
        j := j + 1;
      }
      i := i + 1;
    }
  }

  /** cv2.convertScaleAbs with unit scale on an integer pixel: |p| saturated to 255. */
  function ScaleAbsPixel(p: int): (q: int)
    ensures 0 <= q <= 255
    ensures 0 <= p <= 255 ==> q == p
  {
    var m := if p < 0 then -p else p;
    if m > 255 then 255 else m
  }

  /** cv2.convertScaleAbs(a): a fresh 8-bit image. */
  method ScaleAbs(a: array2<int>) returns (b: array2<int>)
    ensures fresh(b) && b.Length0 == a.Length0 && b.Length1 == a.Length1
    ensures forall r, c :: InImage(a, r, c) ==> b[r, c] == ScaleAbsPixel(a[r, c])
    ensures Is8Bit(b)
  {
    b := new int[a.Length0, a.Length1];
    var i := 0;
    while i < a.Length0
      invariant 0 <= i <= a.Length0
      invariant forall r, c :: 0 <= r < i && 0 <= c < a.Length1 ==> b[r, c] == ScaleAbsPixel(a[r, c])
    {
      var j := 0;
      while j < a.Length1
        invariant 0 <= j <= a.Length1
        invariant forall r, c :: 0 <= r < i && 0 <= c < a.Length1 ==> b[r, c] == ScaleAbsPixel(a[r, c])
        invariant forall c :: 0 <= c < j ==> b[i, c] == ScaleAbsPixel(a[i, c])
      {
        b[i, j] := ScaleAbsPixel(a[i, j]);
        j := j + 1;
      }
      i := i + 1;
    }
  }
}
