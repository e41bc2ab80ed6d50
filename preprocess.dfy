/**
 * Preprocessing of a grey-level fingerprint (binarize_image, skeletonize_image):
 * dispatch on the method name, the Laplacian edge filter as an integer
 * convolution, and the clamp to [0, 255] followed by the polarity inversion.
 * OpenCV's thresholds and its other filters are oracles passed in by the caller.
 */
module Preprocess {
  import opened Wrappers
  import opened Images

  datatype Binarization = Otsu | AdaptiveMean | AdaptiveGaussian

  const OtsuName: string := "Méthode d'Otsu"
  const AdaptiveMeanName: string := "Moyenne adaptative"
  const AdaptiveGaussianName: string := "Gaussienne adaptative"

  function BinarizationName(m: Binarization): string {
    match m
    case Otsu => OtsuName
    case AdaptiveMean => AdaptiveMeanName
    case AdaptiveGaussian => AdaptiveGaussianName
  }

  /** The binarization method a name selects, if any. */
  function BinarizationNamed(name: string): (r: Option<Binarization>)
    ensures r.Some? <==> name == OtsuName || name == AdaptiveMeanName || name == AdaptiveGaussianName
    ensures r.Some? ==> BinarizationName(r.value) == name
  {
    if name == OtsuName then Some(Otsu)
    else if name == AdaptiveMeanName then Some(AdaptiveMean)
    else if name == AdaptiveGaussianName then Some(AdaptiveGaussian)
    else None
  }

  datatype Skeletonization = Laplacian | Sobel | ZhangSuen | GuoHall | Morphology

  const LaplacianName: string := "Filtre Laplacien"
  const SobelName: string := "Filtre Sobel"
  const ZhangSuenName: string := "zhang_suen"
  const GuoHallName: string := "guo_hall"
  const MorphologyName: string := "morphology"

  function SkeletonizationName(m: Skeletonization): string {
    match m
    case Laplacian => LaplacianName
    case Sobel => SobelName
    case ZhangSuen => ZhangSuenName
    case GuoHall => GuoHallName
    case Morphology => MorphologyName
  }

  /** The skeletonization method a name selects, if any. */
  function SkeletonizationNamed(name: string): (r: Option<Skeletonization>)
    ensures r.Some? <==> name in {LaplacianName, SobelName, ZhangSuenName, GuoHallName, MorphologyName}
    ensures r.Some? ==> SkeletonizationName(r.value) == name
  {
    if name == LaplacianName then Some(Laplacian)
    else if name == SobelName then Some(Sobel)
    else if name == ZhangSuenName then Some(ZhangSuen)
    else if name == GuoHallName then Some(GuoHall)
    else if name == MorphologyName then Some(Morphology)
    else None
  }

  /** Every method has its own name, so dispatch recovers the method from its name. */
  lemma NamesSelectTheirMethod(b: Binarization, s: Skeletonization)
    ensures BinarizationNamed(BinarizationName(b)) == Some(b)
    ensures SkeletonizationNamed(SkeletonizationName(s)) == Some(s)
  {
  }

  /**
   * The threshold OpenCV compares pixel (r, c) with: Otsu's global level, or the
   * mean / Gaussian-weighted mean of the 11x11 block minus 2.
   */
  type ThresholdOracle = (Binarization, Grid, int, int) -> int

  /** The output of the Sobel, thinning and morphological filters at (r, c). */
  type FilterOracle = (Skeletonization, Grid, int, int) -> int

  ghost predicate IsBinary(g: seq<seq<int>>) {
    forall i, j :: 0 <= i < |g| && 0 <= j < |g[i]| ==> g[i][j] == 0 || g[i][j] == 255
  }

  /**
   * binarize_image on an image already loaded: THRESH_BINARY with maximum 255 sets
   * a pixel to 255 exactly when it exceeds its threshold, and to 0 otherwise.
   */
  function Binarize(image: Grid, name: string, threshold: ThresholdOracle): (r: Result<Grid>)
    ensures r.Failure? <==> BinarizationNamed(name).None?
    ensures r.Failure? ==> r.error == UnknownMethod(name)
    ensures r.Success? ==> |r.value| == |image| && Width(r.value) == Width(image) && IsBinary(r.value)
    ensures r.Success? ==> forall i, j :: 0 <= i < |image| && 0 <= j < Width(image) ==>
      (r.value[i][j] == 255 <==> image[i][j] > threshold(BinarizationNamed(name).value, image, i, j))
  {
    match BinarizationNamed(name)
    case None => Failure(UnknownMethod(name))
    case Some(m) =>
      var w := Width(image);
      Success(seq(|image|, i requires 0 <= i < |image| =>
        seq(w, j requires 0 <= j < w => if image[i][j] > threshold(m, image, i, j) then 255 else 0)))
  }

  /** A pixel of the image, or 0 outside it (convolve2d's zero fill). */
  function At(g: Grid, r: int, c: int): int {
    if 0 <= r < |g| && 0 <= c < Width(g) then g[r][c] else 0
  }

  /** The kernel of the "Filtre Laplacien" method. */
  const LaplacianKernel: seq<seq<int>> := [[0, -1, 0], [-1, 4, -1], [0, -1, 0]]

  predicate Is3x3(k: seq<seq<int>>) {
    |k| == 3 && |k[0]| == 3 && |k[1]| == 3 && |k[2]| == 3
  }

  /** One kernel row against the image row rr, around column c. */
  function KernelRow(g: Grid, row: seq<int>, rr: int, c: int): int
    requires |row| == 3
  {
    row[0] * At(g, rr, c + 1) + row[1] * At(g, rr, c) + row[2] * At(g, rr, c - 1)
  }

  /**
   * scipy.signal.convolve2d(g, k, mode='same') at (r, c): the full convolution
   * sum over k[u][v] * g[r + 1 - u][c + 1 - v] (the kernel flipped), zero outside g.
   */
  function Convolve3At(g: Grid, k: seq<seq<int>>, r: int, c: int): int
    requires Is3x3(k)
  {
    KernelRow(g, k[0], r + 1, c) + KernelRow(g, k[1], r, c) + KernelRow(g, k[2], r - 1, c)
  }

  /** The Laplacian response: four times the centre minus its four direct neighbours. */
  function LaplacianAt(g: Grid, r: int, c: int): (v: int)
    ensures v == Convolve3At(g, LaplacianKernel, r, c)
  {
    4 * At(g, r, c) - At(g, r - 1, c) - At(g, r + 1, c) - At(g, r, c - 1) - At(g, r, c + 1)
  }

  /** The raw (unclamped) output of a skeletonization method at (r, c). */
  function RawAt(m: Skeletonization, g: Grid, filter: FilterOracle, r: int, c: int): int {
    if m == Laplacian then LaplacianAt(g, r, c) else filter(m, g, r, c)
  }

  /** The two masked assignments: values above 255 become 255, values below 0 become 0. */
  function Clamp(v: int): (w: int)
    ensures 0 <= w <= 255
    ensures 0 <= v <= 255 ==> w == v
    ensures v > 255 ==> w == 255
    ensures v < 0 ==> w == 0
  {
    if v > 255 then 255 else if v < 0 then 0 else v
  }

  /** A skeleton pixel: the clamped raw value, inverted so that ridges are dark. */
  function SkeletonPixel(raw: int): int {
    255 - Clamp(raw)
  }

  /** Every skeleton pixel is an 8-bit intensity, whatever the filter produced. */
  lemma SkeletonPixelIs8Bit(raw: int)
    ensures 0 <= SkeletonPixel(raw) <= 255
    ensures raw <= 0 ==> SkeletonPixel(raw) == 255
    ensures raw >= 255 ==> SkeletonPixel(raw) == 0
  {
  }

  /**
   * On a {0, 255} image every Laplacian response is a multiple of 255 between
   * -4 * 255 and 4 * 255, so the Laplacian skeleton is again a {0, 255} image.
   */
  lemma LaplacianOfBinaryIsBinary(g: Grid, r: int, c: int)
    requires IsBinary(g)
    ensures LaplacianAt(g, r, c) % 255 == 0
    ensures -1020 <= LaplacianAt(g, r, c) <= 1020
    ensures SkeletonPixel(LaplacianAt(g, r, c)) == 0 || SkeletonPixel(LaplacianAt(g, r, c)) == 255
  {
    var n := Bit(g, r - 1, c) + Bit(g, r + 1, c) + Bit(g, r, c - 1) + Bit(g, r, c + 1);
    assert LaplacianAt(g, r, c) == 255 * (4 * Bit(g, r, c) - n);
  }

  /** The pixel at (r, c) of a {0, 255} image divided by 255. */
  function Bit(g: Grid, r: int, c: int): (b: int)
    requires IsBinary(g)
    ensures 0 <= b <= 1 && At(g, r, c) == 255 * b
  {
    if At(g, r, c) == 255 then 1 else 0
  }

  /** Values above 255 become 255 and values below 0 become 0, in place. */
  method ClampInPlace(a: array2<int>)
    modifies a
    ensures forall r, c :: InImage(a, r, c) ==> a[r, c] == Clamp(old(a[r, c]))
  {
    var i := 0;
    while i < a.Length0
      invariant 0 <= i <= a.Length0
      invariant forall r, c :: InImage(a, r, c) ==> a[r, c] == if r < i then Clamp(old(a[r, c])) else old(a[r, c])
    {
      var j := 0;
      while j < a.Length1
        invariant 0 <= j <= a.Length1
        invariant forall r, c :: InImage(a, r, c) ==>
          a[r, c] == if r < i || (r == i && c < j) then Clamp(old(a[r, c])) else old(a[r, c])
      {
        if a[i, j] > 255 { a[i, j] := 255; }
        if a[i, j] < 0 { a[i, j] := 0; }
        j := j + 1;
      }
      i := i + 1;
    }
  }

  /**
   * skeletonize_image on a binarized image: the method's raw output, clamped to
   * [0, 255] in place, then inverted. An unknown name raises ValueError.
   */
  method Skeletonize(image: Grid, name: string, filter: FilterOracle) returns (r: Result<array2<int>>)
    ensures r.Failure? <==> SkeletonizationNamed(name).None?
    ensures r.Failure? ==> r.error == UnknownMethod(name)
    ensures r.Success? ==> fresh(r.value) && r.value.Length0 == |image| && r.value.Length1 == Width(image)
    ensures r.Success? ==> forall i, j :: InImage(r.value, i, j) ==>
      r.value[i, j] == SkeletonPixel(RawAt(SkeletonizationNamed(name).value, image, filter, i, j))
    ensures r.Success? ==> Is8Bit(r.value)
  {
    var chosen := SkeletonizationNamed(name);
    if chosen.None? {
      return Failure(UnknownMethod(name));
    }
    var m := chosen.value;
    var rows, cols := |image|, Width(image);
    var skeleton := new int[rows, cols];
    var i := 0;
    while i < rows
      invariant 0 <= i <= rows
      invariant forall y, x :: 0 <= y < i && 0 <= x < cols ==> skeleton[y, x] == RawAt(m, image, filter, y, x)
    {
      var j := 0;
      while j < cols
        invariant 0 <= j <= cols
        invariant forall y, x :: 0 <= y < i && 0 <= x < cols ==> skeleton[y, x] == RawAt(m, image, filter, y, x)
        invariant forall x :: 0 <= x < j ==> skeleton[i, x] == RawAt(m, image, filter, i, x)
      {
        skeleton[i, j] := RawAt(m, image, filter, i, j);
        j := j + 1;
      }
      i := i + 1;
    }
    ClampInPlace(skeleton);
    var inverted := Invert(skeleton);
    forall y, x | InImage(inverted, y, x) ensures 0 <= inverted[y, x] <= 255 {
      SkeletonPixelIs8Bit(RawAt(m, image, filter, y, x));
    }
    return Success(inverted);
  }

  /** `255 - skeleton`: a fresh image with every pixel inverted. */
  method Invert(a: array2<int>) returns (b: array2<int>)
    ensures fresh(b) && b.Length0 == a.Length0 && b.Length1 == a.Length1
    ensures forall r, c :: InImage(a, r, c) ==> b[r, c] == 255 - a[r, c]
  {
    b := new int[a.Length0, a.Length1];
    var i := 0;
    while i < a.Length0
      invariant 0 <= i <= a.Length0
      invariant forall r, c :: 0 <= r < i && 0 <= c < a.Length1 ==> b[r, c] == 255 - a[r, c]
    {
      var j := 0;
      while j < a.Length1
        invariant 0 <= j <= a.Length1
        invariant forall r, c :: 0 <= r < i && 0 <= c < a.Length1 ==> b[r, c] == 255 - a[r, c]
        invariant forall c :: 0 <= c < j ==> b[i, c] == 255 - a[i, c]
      {
        b[i, j] := 255 - a[i, j];
        j := j + 1;
      }
      i := i + 1;
    }
  }
}
