/**
 * The gallery scan (fingerprint_recognition) and the whole pipeline (main): the
 * query skeleton is compared, ledger row by ledger row, with the skeletons of
 * the enrolled images, around the minutiae the ledger stores for them.
 */
module Recognition {
  import opened Wrappers
  import opened Images
  import opened Preprocess
  import opened Minutiae
  import opened Matching
  import opened Records
  import opened Vault

  /** What the model consults but does not describe: OpenCV and the CSV reader. */
  datatype Vision = Vision(
    threshold: ThresholdOracle,
    filter: FilterOracle,
    score: Scorer,
    imread: Blob -> Option<Grid>,
    csv: Blob -> seq<Row>)

  /** g[y-5:y+6, x-5:x+6]: the 11x11 patch around a minutia, sliced the Python way. */
  function Patch(g: Grid, p: Point): Grid {
    Crop(g, p.y - 5, p.y + 6, p.x - 5, p.x + 6)
  }

  /** Around a minutia the scan can record, the patch is the full 11x11 square of the image. */
  lemma InteriorPatchIsFull(g: Grid, p: Point)
    requires Interior(p, |g|, Width(g))
    ensures |Patch(g, p)| == 11
    ensures forall r, k :: 0 <= r < 11 && 0 <= k < 11 ==>
      |Patch(g, p)[r]| == 11 && Patch(g, p)[r][k] == g[p.y - 5 + r][p.x - 5 + k]
  {
  }

  /** cv2.imread(f'DB/{name}'): None for a file the folder does not have. */
  function ReadImage(vision: Vision, files: map<string, Blob>, name: string): (r: Option<Grid>)
    ensures name !in files ==> r == None
  {
    if name in files then vision.imread(files[name]) else None
  }

  /**
   * binarize_image on what cv2.imread gave for name: an unknown method raises
   * ValueError, and a known one on an unreadable image fails inside OpenCV.
   */
  function BinarizeRead(image: Option<Grid>, name: string, binarization: string, threshold: ThresholdOracle): (r: Result<Grid>)
    ensures BinarizationNamed(binarization).None? ==> r == Failure(UnknownMethod(binarization))
    ensures BinarizationNamed(binarization).Some? && image.None? ==> r == Failure(ImageUnreadable(name))
    ensures image.Some? ==> r == Binarize(image.value, binarization, threshold)
  {
    if BinarizationNamed(binarization).None? then Failure(UnknownMethod(binarization))
    else if image.None? then Failure(ImageUnreadable(name))
    else Binarize(image.value, binarization, threshold)
  }

  /** The skeleton the method m makes of a binarized image, rescaled by cv2.convertScaleAbs. */
  function SkeletonOf(image: Grid, m: Skeletonization, filter: FilterOracle): (g: Grid)
    ensures |g| == |image| && (|image| > 0 ==> Width(g) == Width(image))
    ensures forall i, j :: 0 <= i < |image| && 0 <= j < Width(image) ==>
      g[i][j] == ScaleAbsPixel(SkeletonPixel(RawAt(m, image, filter, i, j)))
  {
    seq(|image|, i requires 0 <= i < |image| =>
      seq(Width(image), j requires 0 <= j < Width(image) => ScaleAbsPixel(SkeletonPixel(RawAt(m, image, filter, i, j)))))
  }

  /**
   * binarize_image, skeletonize_image and cv2.convertScaleAbs on what cv2.imread
   * gave for name: the 8-bit skeleton, or the first error on the way.
   */
  function Skeleton(vision: Vision, image: Option<Grid>, name: string, binarization: string, skeletonization: string): (r: Result<Grid>)
    ensures BinarizationNamed(binarization).None? ==> r == Failure(UnknownMethod(binarization))
    ensures BinarizationNamed(binarization).Some? && image.None? ==> r == Failure(ImageUnreadable(name))
    ensures BinarizationNamed(binarization).Some? && image.Some? && SkeletonizationNamed(skeletonization).None? ==>
      r == Failure(UnknownMethod(skeletonization))
    ensures r.Success? ==> image.Some? && |r.value| == |image.value| && (|r.value| > 0 ==> Width(r.value) == Width(image.value))
    ensures r.Success? ==> forall i, j :: 0 <= i < |r.value| && 0 <= j < Width(r.value) ==> 0 <= r.value[i][j] <= 255
  {
    var binarized :- BinarizeRead(image, name, binarization, vision.threshold);
    if SkeletonizationNamed(skeletonization).None? then Failure(UnknownMethod(skeletonization))
    else Success(SkeletonOf(binarized, SkeletonizationNamed(skeletonization).value, vision.filter))
  }

  /** An array that holds, pixel by pixel, the rescaled skeleton of image holds SkeletonOf(image). */
  lemma SkeletonPixels(a: array2<int>, image: Grid, m: Skeletonization, filter: FilterOracle)
    requires a.Length0 == |image| && a.Length1 == Width(image)
    requires forall r, c :: InImage(a, r, c) ==> a[r, c] == ScaleAbsPixel(SkeletonPixel(RawAt(m, image, filter, r, c)))
    ensures Pixels(a) == SkeletonOf(image, m, filter)
  {
    SameGrid(Pixels(a), SkeletonOf(image, m, filter));
  }

  /** The pipeline of Skeleton on arrays: a fresh array holding the skeleton, or the error. */
  method BuildSkeleton(vision: Vision, image: Option<Grid>, name: string, binarization: string, skeletonization: string)
    returns (r: Result<array2<int>>)
    ensures var skeleton := Skeleton(vision, image, name, binarization, skeletonization);
      r.Failure? ==> skeleton.Failure? && r.error == skeleton.error
    ensures var skeleton := Skeleton(vision, image, name, binarization, skeletonization);
      r.Success? ==> skeleton.Success? && fresh(r.value) && Pixels(r.value) == skeleton.value
  {
    var binarized :- BinarizeRead(image, name, binarization, vision.threshold);
    var skeletonized :- Skeletonize(binarized, skeletonization, vision.filter);
    var skeleton := ScaleAbs(skeletonized);
    SkeletonPixels(skeleton, binarized, SkeletonizationNamed(skeletonization).value, vision.filter);
    r := Success(skeleton);
  }

  /** The number of confirmed minutiae. */
  function Count(verdicts: seq<bool>): (n: nat)
    ensures n <= |verdicts|
  {
    if |verdicts| == 0 then 0
    else Count(verdicts[..|verdicts| - 1]) + (if verdicts[|verdicts| - 1] then 1 else 0)
  }

  lemma CountExtends(verdicts: seq<bool>, v: bool)
    ensures Count(verdicts + [v]) == Count(verdicts) + (if v then 1 else 0)
  {
    assert (verdicts + [v])[..|verdicts|] == verdicts;
  }

  /** The per-minutia test on the images as they stand: both patches matched against the query. */
  function Verdict(score: Scorer, query: Grid, reference: Grid, p: Point): Result<bool> {
    Confirmed(score, query, Patch(reference, p), Patch(query, p))
  }

  /** Every entry of a history passes the test for its position. */
  ghost predicate AllPass<T>(test: (nat, T, bool) -> bool, verdicts: seq<bool>, seen: seq<T>) {
    |verdicts| == |seen| && forall k :: 0 <= k < |verdicts| ==> test(k, seen[k], verdicts[k])
  }

  lemma AllPassExtends<T>(test: (nat, T, bool) -> bool, verdicts: seq<bool>, seen: seq<T>, v: bool, x: T)
    requires AllPass(test, verdicts, seen) && test(|verdicts|, x, v)
    ensures AllPass(test, verdicts + [v], seen + [x])
  {
  }

  /** Each verdict is the test of its minutia on the pair of images it was taken on. */
  ghost predicate Judged(score: Scorer, minutiae: seq<Point>, verdicts: seq<bool>, seen: seq<(Grid, Grid)>) {
    |verdicts| <= |minutiae| &&
    AllPass((k: nat, images: (Grid, Grid), v: bool) =>
      k < |minutiae| && Verdict(score, images.0, images.1, minutiae[k]) == Success(v), verdicts, seen)
  }

  lemma JudgedExtends(score: Scorer, minutiae: seq<Point>, verdicts: seq<bool>, seen: seq<(Grid, Grid)>, v: bool, images: (Grid, Grid))
    requires Judged(score, minutiae, verdicts, seen) && |verdicts| < |minutiae|
    requires Verdict(score, images.0, images.1, minutiae[|verdicts|]) == Success(v)
    ensures Judged(score, minutiae, verdicts + [v], seen + [images])
  {
    AllPassExtends((k: nat, images: (Grid, Grid), v: bool) =>
      k < |minutiae| && Verdict(score, images.0, images.1, minutiae[k]) == Success(v), verdicts, seen, v, images);
  }

  /** Judged spelled out: the k-th verdict is the outcome of the k-th minutia's test on the k-th pair of images. */
  lemma JudgedAt(score: Scorer, minutiae: seq<Point>, verdicts: seq<bool>, seen: seq<(Grid, Grid)>, k: nat)
    requires Judged(score, minutiae, verdicts, seen) && k < |verdicts|
    ensures k < |seen| && k < |minutiae| && Verdict(score, seen[k].0, seen[k].1, minutiae[k]) == Success(verdicts[k])
  {
  }

  /**
   * Until a minutia is confirmed nothing is marked: every verdict taken before the
   * first confirmation was taken on the start images.
   */
  ghost predicate Steady(verdicts: seq<bool>, seen: seq<(Grid, Grid)>, start: (Grid, Grid)) {
    |verdicts| == |seen| &&
    (|verdicts| == 0 ||
     var n := |verdicts| - 1;
     Steady(verdicts[..n], seen[..n], start) && (Count(verdicts[..n]) == 0 ==> seen[n] == start))
  }

  lemma SteadyExtends(verdicts: seq<bool>, seen: seq<(Grid, Grid)>, start: (Grid, Grid), v: bool, images: (Grid, Grid))
    requires Steady(verdicts, seen, start)
    requires Count(verdicts) == 0 ==> images == start
    ensures Steady(verdicts + [v], seen + [images], start)
  {
    assert (verdicts + [v])[..|verdicts|] == verdicts;
    assert (seen + [images])[..|seen|] == seen;
  }

  /**
   * A row none of whose minutiae the test confirms on the start images is never
   * confirmed at all: the images stay the start images, so every verdict is negative.
   */
  lemma {:induction false} SteadyRejects(score: Scorer, minutiae: seq<Point>, verdicts: seq<bool>, seen: seq<(Grid, Grid)>,
                                         start: (Grid, Grid))
    requires Judged(score, minutiae, verdicts, seen) && Steady(verdicts, seen, start)
    requires forall k :: 0 <= k < |minutiae| ==> Verdict(score, start.0, start.1, minutiae[k]) != Success(true)
    ensures Count(verdicts) == 0
    decreases |verdicts|
  {
    if |verdicts| > 0 {
      var n := |verdicts| - 1;
      JudgedAt(score, minutiae, verdicts, seen, n);
      JudgedPrefix(score, minutiae, verdicts, seen, n);
      SteadyRejects(score, minutiae, verdicts[..n], seen[..n], start);
    }
  }

  lemma JudgedPrefix(score: Scorer, minutiae: seq<Point>, verdicts: seq<bool>, seen: seq<(Grid, Grid)>, n: nat)
    requires Judged(score, minutiae, verdicts, seen) && n <= |verdicts|
    ensures Judged(score, minutiae, verdicts[..n], seen[..n])
  {
    forall k | 0 <= k < n
      ensures k < |minutiae| && Verdict(score, seen[..n][k].0, seen[..n][k].1, minutiae[k]) == Success(verdicts[..n][k])
    {
      JudgedAt(score, minutiae, verdicts, seen, k);
    }
  }

  /**
   * The loop of one ledger row: `while cpt < nb_minutiae and i < len(minuties)`.
   * Each minutia is judged on the query and reference skeletons as they stand,
   * marks drawn for earlier confirmations included; a confirmed one is counted
   * and marked on both. The ghost results record the verdicts, the pair of
   * images each verdict was taken on, and the pair a failed test was taken on.
   */
  method MatchRecord(score: Scorer, query: array2<int>, reference: array2<int>, minutiae: seq<Point>, wanted: int)
    returns (r: Result<nat>, ghost verdicts: seq<bool>, ghost seen: seq<(Grid, Grid)>, ghost failedOn: (Grid, Grid))
    requires query != reference
    modifies query, reference
    ensures |verdicts| <= |minutiae|
    ensures r.Failure? ==>
      Count(verdicts) < wanted && |verdicts| < |minutiae| &&
      Verdict(score, failedOn.0, failedOn.1, minutiae[|verdicts|]) == Failure(r.error)
    ensures r.Success? ==> r.value == Count(verdicts)
    ensures r.Success? ==> (wanted <= 0 ==> r.value == 0) && (wanted > 0 ==> r.value <= wanted)
    ensures r.Success? ==> r.value >= wanted || |verdicts| == |minutiae|
    ensures |seen| == |verdicts| && (|seen| > 0 ==> seen[0] == (old(Pixels(query)), old(Pixels(reference))))
    ensures Judged(score, minutiae, verdicts, seen)
    ensures Steady(verdicts, seen, (old(Pixels(query)), old(Pixels(reference))))
    ensures r.Failure? && Count(verdicts) == 0 ==> failedOn == (old(Pixels(query)), old(Pixels(reference)))
    ensures Count(verdicts) == 0 ==> Pixels(query) == old(Pixels(query)) && Pixels(reference) == old(Pixels(reference))
    ensures forall y, x :: InImage(query, y, x) ==>
      query[y, x] == old(query[y, x]) || (NearAny(minutiae, y, x) && query[y, x] == 0)
    ensures forall y, x :: InImage(reference, y, x) ==>
      reference[y, x] == old(reference[y, x]) || (NearAny(minutiae, y, x) && reference[y, x] == 0)
  {
    var cpt := 0;
    var i := 0;
    verdicts, seen, failedOn := [], [], ([], []);
    ghost var start := (Pixels(query), Pixels(reference));
    while cpt < wanted && i < |minutiae|
      invariant 0 <= i <= |minutiae| && |verdicts| == i == |seen|
      invariant cpt == Count(verdicts)
      invariant wanted > 0 ==> cpt <= wanted
      invariant wanted <= 0 ==> i == 0
      invariant i > 0 ==> seen[0] == (old(Pixels(query)), old(Pixels(reference)))
      invariant Judged(score, minutiae, verdicts, seen)
      invariant start == (old(Pixels(query)), old(Pixels(reference)))
      invariant Steady(verdicts, seen, start)
      invariant Count(verdicts) == 0 ==> Pixels(query) == old(Pixels(query)) && Pixels(reference) == old(Pixels(reference))
      invariant forall y, x :: InImage(query, y, x) ==>
        query[y, x] == old(query[y, x]) || (NearAny(minutiae, y, x) && query[y, x] == 0)
      invariant forall y, x :: InImage(reference, y, x) ==>
        reference[y, x] == old(reference[y, x]) || (NearAny(minutiae, y, x) && reference[y, x] == 0)
    {
      var verdict, images := TestMinutia(score, query, reference, minutiae, i);
      if verdict.Failure? {
        return Failure(verdict.error), verdicts, seen, images;
      }
      var confirmed := verdict.value;
      JudgedExtends(score, minutiae, verdicts, seen, confirmed, images);
      SteadyExtends(verdicts, seen, start, confirmed, images);
      CountExtends(verdicts, confirmed);
      verdicts, seen := verdicts + [confirmed], seen + [images];
      if confirmed {
        cpt := cpt + 1;
      }
      i := i + 1;
    }
    r := Success(cpt);
  }

  /**
   * One pass of the loop body: the minutia is judged on the images as they stand
   * and, when confirmed, marked on both.
   */
  method TestMinutia(score: Scorer, query: array2<int>, reference: array2<int>, minutiae: seq<Point>, i: nat)
    returns (r: Result<bool>, ghost images: (Grid, Grid))
    requires query != reference && i < |minutiae|
    modifies query, reference
    ensures images == (old(Pixels(query)), old(Pixels(reference)))
    ensures r == Verdict(score, images.0, images.1, minutiae[i])
    ensures r != Success(true) ==> Pixels(query) == images.0 && Pixels(reference) == images.1
    ensures forall y, x :: InImage(query, y, x) ==>
      query[y, x] == old(query[y, x]) || (NearAny(minutiae, y, x) && query[y, x] == 0)
    ensures forall y, x :: InImage(reference, y, x) ==>
      reference[y, x] == old(reference[y, x]) || (NearAny(minutiae, y, x) && reference[y, x] == 0)
  {
    var current, bdd := Pixels(query), Pixels(reference);
    images := (current, bdd);
    r := Confirm(score, current, bdd, minutiae[i]);
    if r == Success(true) {
      MarkNear(query, minutiae, i);
      MarkNear(reference, minutiae, i);
    }
  }

  /**
   * The body of the test: match_template of the reference patch, then of the query
   * patch, both against the query, and the two variances compared with 0.
   */
  method Confirm(score: Scorer, query: Grid, reference: Grid, p: Point) returns (r: Result<bool>)
    ensures r == Verdict(score, query, reference, p)
  {
    var referenceMeans := MatchTemplate(score, query, Patch(reference, p));
    if referenceMeans.Failure? {
      return Failure(referenceMeans.error);
    }
    var queryMeans := MatchTemplate(score, query, Patch(query, p));
    if queryMeans.Failure? {
      return Failure(queryMeans.error);
    }
    r := Success(VarianceOf(referenceMeans.value) == Real(0.0) && VarianceOf(queryMeans.value) == Real(0.0));
  }

  /** cv2.rectangle around the k-th minutia: what it paints is near one of the minutiae. */
  method MarkNear(image: array2<int>, minutiae: seq<Point>, k: nat)
    requires k < |minutiae|
    modifies image
    ensures forall y, x :: InImage(image, y, x) ==>
      image[y, x] == old(image[y, x]) || (NearAny(minutiae, y, x) && image[y, x] == 0)
  {
    Mark(image, minutiae[k]);
    forall y, x | InImage(image, y, x) && image[y, x] != old(image[y, x])
      ensures NearAny(minutiae, y, x)
    {
      assert InWindow(minutiae[k], y, x);
    }
  }

  /** One accepted record: the person, and the enrolled image as cv2.imread gives it. */
  datatype Identified = Identified(person: string, image: Grid)

  /** What the comparison of one row went through: its verdicts, the images each was taken on, and those of a failed test. */
  datatype Comparison = Comparison(verdicts: seq<bool>, seen: seq<(Grid, Grid)>, failedOn: (Grid, Grid))

  /**
   * The outcome r of comparing the query, with pixels query, against a ledger
   * row. A bad row, or a reference skeleton that cannot be built, fails with its
   * error. Otherwise the verdicts are the tests of the row's minutiae in order, the
   * first on the query and the reference as given; the walk stops at wanted
   * confirmations or after the last minutia, and the record is kept exactly when
   * wanted were confirmed. A test that fails ends the comparison with its error.
   */
  ghost predicate ComparedAs(vision: Vision, files: map<string, Blob>, row: Row, query: Grid, binarization: string,
                             skeletonization: string, wanted: int, r: Result<Option<Identified>>, log: Comparison) {
    match ReadRow(row, binarization)
    case Failure(error) => r == Failure(error)
    case Success(e) =>
      match Skeleton(vision, ReadImage(vision, files, e.image), e.image, binarization, skeletonization)
      case Failure(error) => r == Failure(error)
      case Success(reference) =>
        Judged(vision.score, e.minutiae, log.verdicts, log.seen) &&
        (|log.seen| > 0 ==> log.seen[0] == (query, reference)) &&
        Steady(log.verdicts, log.seen, (query, reference)) &&
        match r
        case Success(kept) =>
          (Count(log.verdicts) >= wanted || |log.verdicts| == |e.minutiae|) &&
          (kept.Some? <==> Count(log.verdicts) >= wanted) &&
          (kept.Some? ==> kept.value == Identified(e.person, ReadImage(vision, files, e.image).value))
        case Failure(error) =>
          Count(log.verdicts) < wanted && |log.verdicts| < |e.minutiae| &&
          Verdict(vision.score, log.failedOn.0, log.failedOn.1, e.minutiae[|log.verdicts|]) == Failure(error) &&
          (Count(log.verdicts) == 0 ==> log.failedOn == (query, reference))
  }

  /** A kept record names the row's person and image, and the row holds at least wanted minutiae. */
  lemma ComparedKeeps(vision: Vision, files: map<string, Blob>, row: Row, query: Grid, binarization: string,
                      skeletonization: string, wanted: int, found: Identified, log: Comparison)
    requires ComparedAs(vision, files, row, query, binarization, skeletonization, wanted, Success(Some(found)), log)
    ensures ReadRow(row, binarization).Success? && |row| >= 2 && found.person == row[1]
    ensures ReadImage(vision, files, row[0]) == Some(found.image)
    ensures wanted <= |ReadRow(row, binarization).value.minutiae|
  {
    var e := ReadRow(row, binarization).value;
    var log' := log;
    assert Count(log'.verdicts) <= |log'.verdicts| <= |e.minutiae|;
  }

  /**
   * A row none of whose minutiae the test confirms on the query and the row's
   * reference skeleton, both unmarked, is not kept, and a test that fails on it
   * fails on those unmarked images.
   */
  lemma RowRejected(vision: Vision, files: map<string, Blob>, row: Row, query: Grid, binarization: string,
                    skeletonization: string, wanted: int, r: Result<Option<Identified>>, log: Comparison)
    requires ComparedAs(vision, files, row, query, binarization, skeletonization, wanted, r, log)
    requires ReadRow(row, binarization).Success? && wanted > 0
    requires var e := ReadRow(row, binarization).value;
      var reference := Skeleton(vision, ReadImage(vision, files, e.image), e.image, binarization, skeletonization);
      reference.Success? &&
      forall k :: 0 <= k < |e.minutiae| ==> Verdict(vision.score, query, reference.value, e.minutiae[k]) != Success(true)
    ensures r.Success? ==> r.value.None?
    ensures var e := ReadRow(row, binarization).value;
      var reference := Skeleton(vision, ReadImage(vision, files, e.image), e.image, binarization, skeletonization);
      r.Failure? ==> log.failedOn == (query, reference.value)
  {
    var e := ReadRow(row, binarization).value;
    var reference := Skeleton(vision, ReadImage(vision, files, e.image), e.image, binarization, skeletonization).value;
    SteadyRejects(vision.score, e.minutiae, log.verdicts, log.seen, (query, reference));
  }

  /** The records kept, in ledger order. */
  function Accepted(outcomes: seq<Option<Identified>>): (r: seq<Identified>)
    ensures |r| <= |outcomes|
    ensures forall k :: 0 <= k < |outcomes| && outcomes[k].Some? ==> outcomes[k].value in r
  {
    if |outcomes| == 0 then []
    else
      var pre := outcomes[..|outcomes| - 1];
      assert forall k :: 0 <= k < |pre| ==> pre[k] == outcomes[k];
      Accepted(pre) + (if outcomes[|outcomes| - 1].Some? then [outcomes[|outcomes| - 1].value] else [])
  }

  lemma AcceptedExtends(outcomes: seq<Option<Identified>>, o: Option<Identified>)
    ensures Accepted(outcomes + [o]) == Accepted(outcomes) + (if o.Some? then [o.value] else [])
  {
    assert (outcomes + [o])[..|outcomes|] == outcomes;
  }

  /** Each of the first |outcomes| rows was compared, with the query as given, to its outcome. */
  ghost predicate ComparedRows(vision: Vision, files: map<string, Blob>, rows: seq<Row>, query: Grid, binarization: string,
                               skeletonization: string, wanted: int, outcomes: seq<Option<Identified>>, logs: seq<Comparison>) {
    |outcomes| <= |rows| && |outcomes| <= |logs| &&
    forall k :: 0 <= k < |outcomes| ==>
      RowCompared(vision, files, rows, query, binarization, skeletonization, wanted, outcomes, logs, k)
  }

  /** Row k of the ledger was compared as ComparedAs says, giving outcome k and log k. */
  ghost predicate RowCompared(vision: Vision, files: map<string, Blob>, rows: seq<Row>, query: Grid, binarization: string,
                              skeletonization: string, wanted: int, outcomes: seq<Option<Identified>>, logs: seq<Comparison>,
                              k: int) {
    0 <= k < |outcomes| && k < |rows| && k < |logs| &&
    ComparedAs(vision, files, rows[k], query, binarization, skeletonization, wanted, Success(outcomes[k]), logs[k])
  }
  /**
   * ComparedAs carried across equal arguments. The fact is trivial; the lemma is
   * there so that the solver moves ComparedAs whole instead of splitting it into
   * its conjuncts, which keeps ComparedRowsExtends and WalkFails cheap.
   */
  lemma ComparedAsAgain(vision: Vision, files: map<string, Blob>, row: Row, query: Grid, binarization: string,
                        skeletonization: string, wanted: int, r: Result<Option<Identified>>, log: Comparison,
                        row': Row, r': Result<Option<Identified>>, log': Comparison)
    requires ComparedAs(vision, files, row, query, binarization, skeletonization, wanted, r, log)
    requires row' == row && r' == r && log' == log
    ensures ComparedAs(vision, files, row', query, binarization, skeletonization, wanted, r', log')
  {
  }

  lemma ComparedRowsExtends(vision: Vision, files: map<string, Blob>, rows: seq<Row>, query: Grid, binarization: string,
                            skeletonization: string, wanted: int, outcomes: seq<Option<Identified>>, logs: seq<Comparison>,
                            o: Option<Identified>, log: Comparison)
    requires ComparedRows(vision, files, rows, query, binarization, skeletonization, wanted, outcomes, logs)
    requires |outcomes| == |logs| < |rows|
    requires ComparedAs(vision, files, rows[|outcomes|], query, binarization, skeletonization, wanted, Success(o), log)
    ensures ComparedRows(vision, files, rows, query, binarization, skeletonization, wanted, outcomes + [o], logs + [log])
  {
    var os, ls := outcomes + [o], logs + [log];
    forall k | 0 <= k < |os|
      ensures RowCompared(vision, files, rows, query, binarization, skeletonization, wanted, os, ls, k)
    {
      if k < |outcomes| {
        assert RowCompared(vision, files, rows, query, binarization, skeletonization, wanted, outcomes, logs, k);
        ComparedAsAgain(vision, files, rows[k], query, binarization, skeletonization, wanted,
                        Success(outcomes[k]), logs[k], rows[k], Success(os[k]), ls[k]);
      } else {
        assert k == |outcomes|;
        assert os[k] == o && ls[k] == log;
        ComparedAsAgain(vision, files, rows[|outcomes|], query, binarization, skeletonization, wanted,
                        Success(o), log, rows[k], Success(os[k]), ls[k]);
      }
    }
  }

  /**
   * The walk over the ledger rows with the query as given: the rows before the
   * first failure were compared in order, the walk reached the last row exactly
   * when none failed, and otherwise the next row is the one whose error ended it.
   */
  ghost predicate Walked(vision: Vision, files: map<string, Blob>, rows: seq<Row>, query: Grid, binarization: string,
                         skeletonization: string, wanted: int, outcomes: seq<Option<Identified>>, logs: seq<Comparison>,
                         failure: Option<Error>) {
    ComparedRows(vision, files, rows, query, binarization, skeletonization, wanted, outcomes, logs) &&
    |logs| == |outcomes| + (if failure.Some? then 1 else 0) &&
    (failure.None? <==> |outcomes| == |rows|) &&
    (failure.Some? ==>
      ComparedAs(vision, files, rows[|outcomes|], query, binarization, skeletonization, wanted, Failure(failure.value), logs[|outcomes|]))
  }

  /** A row that fails ends the walk. */
  lemma WalkFails(vision: Vision, files: map<string, Blob>, rows: seq<Row>, query: Grid, binarization: string,
                  skeletonization: string, wanted: int, outcomes: seq<Option<Identified>>, logs: seq<Comparison>,
                  error: Error, log: Comparison)
    requires ComparedRows(vision, files, rows, query, binarization, skeletonization, wanted, outcomes, logs)
    requires |outcomes| == |logs| < |rows|
    requires ComparedAs(vision, files, rows[|outcomes|], query, binarization, skeletonization, wanted, Failure(error), log)
    ensures Walked(vision, files, rows, query, binarization, skeletonization, wanted, outcomes, logs + [log], Some(error))
  {
    var ls := logs + [log];
    forall k | 0 <= k < |outcomes|
      ensures RowCompared(vision, files, rows, query, binarization, skeletonization, wanted, outcomes, ls, k)
    {
      assert RowCompared(vision, files, rows, query, binarization, skeletonization, wanted, outcomes, logs, k);
      ComparedAsAgain(vision, files, rows[k], query, binarization, skeletonization, wanted,
                      Success(outcomes[k]), logs[k], rows[k], Success(outcomes[k]), ls[k]);
    }
    assert ls[|outcomes|] == log;
  }

  /** Opening the folder leaves the ledger as it was. */
  lemma OpenedKeepsLedger(d: Disk, names: seq<string>)
    ensures Opened(d, names).disk.files.Keys == d.files.Keys
    ensures Ledger in d.files ==> Opened(d, names).disk.files[Ledger] == d.files[Ledger]
  {
    if d.keyText.Some? {
      SweptFrame(d, names, UnsealPass(d.keyText.value));
    }
  }

  /**
   * One iteration of the walk over the ledger rows: the row is read, its image
   * binarized, skeletonized and rescaled, and the query compared with it. The
   * record is kept when at least wanted of its minutiae are confirmed; the query
   * keeps the marks of the comparison.
   */
  method CompareRow(vision: Vision, files: map<string, Blob>, row: Row, query: array2<int>,
                    binarization: string, skeletonization: string, wanted: int)
    returns (r: Result<Option<Identified>>, ghost log: Comparison)
    modifies query
    ensures ComparedAs(vision, files, row, old(Pixels(query)), binarization, skeletonization, wanted, r, log)
    ensures forall y, x :: InImage(query, y, x) ==> query[y, x] == old(query[y, x]) || query[y, x] == 0
  {
    log := Comparison([], [], ([], []));
    var e :- ReadRow(row, binarization);
    var image := ReadImage(vision, files, e.image);
    var reference :- BuildSkeleton(vision, image, e.image, binarization, skeletonization);
    var matched, verdicts, seen, failedOn := MatchRecord(vision.score, query, reference, e.minutiae, wanted);
    log := Comparison(verdicts, seen, failedOn);
    var confirmed :- matched;
    if confirmed >= wanted {
      return Success(Some(Identified(e.person, image.value))), log;
    }
    return Success(None), log;
  }

  /**
   * The walk over the ledger rows inside fingerprint_recognition's handler. The
   * first exception ends the walk and is returned; the records after it are not
   * compared. Every row is compared with the skeleton as the caller gave it: the
   * first on the caller's array, which keeps its marks, every later one on a
   * fresh copy.
   */
  method ScanLedger(vision: Vision, files: map<string, Blob>, rows: seq<Row>, skeleton: array2<int>,
                    binarization: string, skeletonization: string, wanted: int)
    returns (result: seq<Identified>, failure: Option<Error>, ghost outcomes: seq<Option<Identified>>, ghost logs: seq<Comparison>)
    modifies skeleton
    ensures Walked(vision, files, rows, old(Pixels(skeleton)), binarization, skeletonization, wanted, outcomes, logs, failure)
    ensures result == Accepted(outcomes)
    ensures forall y, x :: InImage(skeleton, y, x) ==> skeleton[y, x] == old(skeleton[y, x]) || skeleton[y, x] == 0
  {
    result, failure, outcomes, logs := [], None, [], [];
    ghost var start := Pixels(skeleton);
    var pristine := Copy(skeleton);
    SameGrid(Pixels(pristine), start);
    var query := skeleton;
    var k := 0;
    while k < |rows|
      invariant 0 <= k <= |rows| && |outcomes| == k == |logs|
      invariant ComparedRows(vision, files, rows, start, binarization, skeletonization, wanted, outcomes, logs)
      invariant result == Accepted(outcomes)
      invariant query == skeleton || fresh(query)
      invariant fresh(pristine) && query != pristine
      invariant Pixels(pristine) == start && Pixels(query) == start
      invariant forall y, x :: InImage(skeleton, y, x) ==> skeleton[y, x] == old(skeleton[y, x]) || skeleton[y, x] == 0
    {
      var compared, log, next := CompareThenCopy(vision, files, rows[k], query, pristine, binarization, skeletonization, wanted);
      if compared.Failure? {
        WalkFails(vision, files, rows, start, binarization, skeletonization, wanted, outcomes, logs, compared.error, log);
        failure, logs := Some(compared.error), logs + [log];
        return;
      }
      ComparedRowsExtends(vision, files, rows, start, binarization, skeletonization, wanted, outcomes, logs, compared.value, log);
      AcceptedExtends(outcomes, compared.value);
      if compared.value.Some? {
        result := result + [compared.value.value];
      }
      outcomes, logs := outcomes + [compared.value], logs + [log];
      query := next;
      k := k + 1;
    }
  }

  /** The body of the walk: the row is compared on query, then the next row gets a fresh copy of pristine. */
  method CompareThenCopy(vision: Vision, files: map<string, Blob>, row: Row, query: array2<int>, pristine: array2<int>,
                         binarization: string, skeletonization: string, wanted: int)
    returns (r: Result<Option<Identified>>, ghost log: Comparison, next: array2<int>)
    requires query != pristine && Pixels(query) == Pixels(pristine)
    modifies query
    ensures ComparedAs(vision, files, row, Pixels(pristine), binarization, skeletonization, wanted, r, log)
    ensures fresh(next) && Pixels(next) == Pixels(pristine)
    ensures forall y, x :: InImage(query, y, x) ==> query[y, x] == old(query[y, x]) || query[y, x] == 0
  {
    r, log := CompareRow(vision, files, row, query, binarization, skeletonization, wanted);
    next := Copy(pristine);
    SameGrid(Pixels(next), Pixels(pristine));
  }

  /** The walk over the ledger escapes fingerprint_recognition only through the handler's NameError. */
  predicate Escapes(failure: Option<Error>, asScript: bool) {
    failure.Some? && failure.value.FileNotFound? && !asScript
  }

  /**
   * fingerprint_recognition. The key text is read and every image of the listing
   * decrypted with it, outside any handler, so a failure there reaches the
   * caller. The ledger is then walked inside one handler, which swallows every
   * exception but one: the handler of FileNotFoundError names a variable that
   * exists only when the program runs as a script, so otherwise a NameError
   * escapes and the folder stays decrypted. Finally every image is encrypted
   * again, each under a new key of its own (keys[i] for position i).
   */
  method FingerprintRecognition(vision: Vision, vault: Folder, names: seq<string>, skeleton: array2<int>,
                                binarization: string, skeletonization: string, wanted: int, asScript: bool, keys: seq<Key>)
    returns (r: Result<seq<Identified>>, ghost outcomes: seq<Option<Identified>>, ghost logs: seq<Comparison>,
             ghost failure: Option<Error>)
    modifies vault, skeleton
    ensures var opening := Opened(old(vault.State()), names);
      opening.error.Some? ==> r == Failure(opening.error.value) && vault.State() == opening.disk
    ensures old(vault.keyText).None? ==> r == Failure(FileNotFound(KeyFile)) && vault.State() == old(vault.State())
    ensures var opening := Opened(old(vault.State()), names);
      opening.error.None? ==>
        (Ledger !in old(vault.files) ==> failure == Some(FileNotFound(Ledger))) &&
        (Ledger in old(vault.files) ==>
          Walked(vision, opening.disk.files, vision.csv(old(vault.files)[Ledger]), old(Pixels(skeleton)),
                 binarization, skeletonization, wanted, outcomes, logs, failure))
    ensures var opening := Opened(old(vault.State()), names);
      opening.error.None? && Escapes(failure, asScript) ==> r == Failure(UndefinedFilePath) && vault.State() == opening.disk
    ensures var opening := Opened(old(vault.State()), names);
      var resealed := Swept(opening.disk, names, ResealPass(keys));
      opening.error.None? && !Escapes(failure, asScript) ==>
        vault.State() == resealed.disk && (r.Success? <==> resealed.error.None?) &&
        (r.Failure? ==> resealed.error == Some(r.error))
    ensures r.Success? ==> r.value == if Ledger in old(vault.files) then Accepted(outcomes) else []
    ensures forall y, x :: InImage(skeleton, y, x) ==> skeleton[y, x] == old(skeleton[y, x]) || skeleton[y, x] == 0
  {
    outcomes, logs, failure := [], [], None;
    ghost var start := vault.State();
    OpenedKeepsLedger(start, names);
    var opening := vault.Open(names);
    if opening.Some? {
      return Failure(opening.value), outcomes, logs, failure;
    }
    var result: seq<Identified> := [];
    var escaped: Option<Error>;
    if Ledger !in vault.files {
      escaped := Some(FileNotFound(Ledger));
    } else {
      result, escaped, outcomes, logs := ScanLedger(vision, vault.files, vision.csv(vault.files[Ledger]), skeleton,
                                                    binarization, skeletonization, wanted);
    }
    failure := escaped;
    if Escapes(escaped, asScript) {
      return Failure(UndefinedFilePath), outcomes, logs, failure;
    }
    var resealing := vault.Walk(names, ResealPass(keys));
    if resealing.Some? {
      return Failure(resealing.value), outcomes, logs, failure;
    }
    r := Success(result);
  }

  /**
   * main. The query image is binarized, skeletonized and rescaled; the crossing
   * number runs on a second rescaled copy, so the skeleton given to the gallery
   * scan carries no marks of its own. A failure up to and including the gallery
   * scan reaches the caller and the folder is not rebuilt. Otherwise the folder
   * is rebuilt from the master copy, encrypted under a first key and moved to a
   * second one; a failure there is swallowed, and the result is returned. The
   * ghost results are those of the crossing number and of the gallery scan.
   */
  method Identify(vision: Vision, vault: Folder, names: seq<string>, query: Option<Grid>, queryName: string,
                  binarization: string, skeletonization: string, wanted: int, asScript: bool, keys: seq<Key>,
                  master: map<string, Blob>, masterNames: seq<string>, first: Key, second: Key)
    returns (r: Result<seq<Identified>>, minutiae: nat, bifurcations: nat,
             ghost detected: seq<Point>, ghost rings: seq<Ring>,
             ghost outcomes: seq<Option<Identified>>, ghost logs: seq<Comparison>, ghost failure: Option<Error>)
    modifies vault
    ensures var skeleton := Skeleton(vision, query, queryName, binarization, skeletonization);
      skeleton.Failure? ==> r == Failure(skeleton.error) && vault.State() == old(vault.State())
    ensures BinarizationNamed(binarization).Some? && query.Some? && SkeletonizationNamed(skeletonization).None? ==>
      r == Failure(UnknownMethod(skeletonization)) && vault.State() == old(vault.State())
    ensures var skeleton := Skeleton(vision, query, queryName, binarization, skeletonization);
      skeleton.Success? ==>
        minutiae == |detected| == |rings| && bifurcations == |Bifurcations(detected, rings)| &&
        Faithful(skeleton.value, Bifurcations(detected, rings), detected, rings) &&
        (minutiae == 0 <==> NoMinutia(skeleton.value)) &&
        (minutiae > 0 ==> FirstFound(skeleton.value, detected, rings))
    ensures bifurcations <= minutiae
    ensures var skeleton := Skeleton(vision, query, queryName, binarization, skeletonization);
      var opening := Opened(old(vault.State()), names);
      skeleton.Success? && opening.error.Some? ==> r == Failure(opening.error.value) && vault.State() == opening.disk
    ensures var skeleton := Skeleton(vision, query, queryName, binarization, skeletonization);
      var opening := Opened(old(vault.State()), names);
      skeleton.Success? && opening.error.None? && Ledger in old(vault.files) ==>
        Walked(vision, opening.disk.files, vision.csv(old(vault.files)[Ledger]), skeleton.value,
               binarization, skeletonization, wanted, outcomes, logs, failure)
    ensures var skeleton := Skeleton(vision, query, queryName, binarization, skeletonization);
      var opening := Opened(old(vault.State()), names);
      skeleton.Success? && opening.error.None? && Ledger !in old(vault.files) ==> failure == Some(FileNotFound(Ledger))
    ensures var skeleton := Skeleton(vision, query, queryName, binarization, skeletonization);
      var opening := Opened(old(vault.State()), names);
      skeleton.Success? && opening.error.None? && Escapes(failure, asScript) ==>
        r == Failure(UndefinedFilePath) && vault.State() == opening.disk
    ensures var skeleton := Skeleton(vision, query, queryName, binarization, skeletonization);
      var opening := Opened(old(vault.State()), names);
      var resealed := Swept(opening.disk, names, ResealPass(keys));
      skeleton.Success? && opening.error.None? && !Escapes(failure, asScript) && resealed.error.Some? ==>
        r == Failure(resealed.error.value) && vault.State() == resealed.disk
    ensures r.Success? <==>
      var opening := Opened(old(vault.State()), names);
      Skeleton(vision, query, queryName, binarization, skeletonization).Success? && opening.error.None? &&
      !Escapes(failure, asScript) && Swept(opening.disk, names, ResealPass(keys)).error.None?
    ensures r.Success? ==> r.value == if Ledger in old(vault.files) then Accepted(outcomes) else []
    ensures r.Success? && Lists(masterNames, master) ==>
      Opened(vault.State(), masterNames).error == None && Opened(vault.State(), masterNames).disk.files == master
  {
    outcomes, logs, failure := [], [], None;
    var skeleton;
    skeleton, minutiae, bifurcations, detected, rings := Prepare(vision, query, queryName, binarization, skeletonization);
    if skeleton.Failure? {
      return Failure(skeleton.error), minutiae, bifurcations, detected, rings, outcomes, logs, failure;
    }
    var recognised;
    recognised, outcomes, logs, failure := FingerprintRecognition(vision, vault, names, skeleton.value, binarization,
                                                                  skeletonization, wanted, asScript, keys);
    if recognised.Failure? {
      return recognised, minutiae, bifurcations, detected, rings, outcomes, logs, failure;
    }
    Rebuild(vault, master, masterNames, first, second);
    r := recognised;
  }

  /**
   * The query side of main: the image is binarized, skeletonized and rescaled,
   * and the crossing number runs on a second rescaled copy, which receives its
   * marks. The skeleton returned is unmarked.
   */
  method Prepare(vision: Vision, query: Option<Grid>, queryName: string, binarization: string, skeletonization: string)
    returns (r: Result<array2<int>>, minutiae: nat, bifurcations: nat, ghost detected: seq<Point>, ghost rings: seq<Ring>)
    ensures var skeleton := Skeleton(vision, query, queryName, binarization, skeletonization);
      (r.Success? <==> skeleton.Success?) && (r.Failure? ==> r == Failure(skeleton.error))
    ensures r.Success? ==> fresh(r.value) && Pixels(r.value) == Skeleton(vision, query, queryName, binarization, skeletonization).value
    ensures bifurcations <= minutiae
    ensures var skeleton := Skeleton(vision, query, queryName, binarization, skeletonization);
      skeleton.Success? ==>
        minutiae == |detected| == |rings| && bifurcations == |Bifurcations(detected, rings)| &&
        Faithful(skeleton.value, Bifurcations(detected, rings), detected, rings) &&
        (minutiae == 0 <==> NoMinutia(skeleton.value)) &&
        (minutiae > 0 ==> FirstFound(skeleton.value, detected, rings))
  {
    minutiae, bifurcations, detected, rings := 0, 0, [], [];
    var skeleton :- BuildSkeleton(vision, query, queryName, binarization, skeletonization);
    ghost var g := Pixels(skeleton);
    var marked := ScaleAbs(skeleton);
    SameGrid(Pixels(marked), g);
    var found;
    minutiae, bifurcations, found, detected, rings := CrossingNumber(marked);
    SameGrid(Pixels(skeleton), g);
    r := Success(skeleton);
  }

  /**
   * The end of main: the folder is rebuilt from the master copy, encryption seals
   * it under first and newEncryption moves it to second. A failed encryption skips
   * the rotation, and main's handler swallows either failure.
   */
  method Rebuild(vault: Folder, master: map<string, Blob>, masterNames: seq<string>, first: Key, second: Key)
    modifies vault
    ensures var encrypted := Swept(WriteKey(Disk(master, old(vault.keyText)), first), masterNames, EncryptPass);
      vault.State() == if encrypted.error.Some? then encrypted.disk else Rotated(encrypted.disk, masterNames, second).disk
    ensures Lists(masterNames, master) ==>
      Opened(vault.State(), masterNames).error == None && Opened(vault.State(), masterNames).disk.files == master
  {
    ghost var keyText := vault.keyText;
    vault.Restore(master);
    var err := vault.Encryption(masterNames, first);
    if Lists(masterNames, master) {
      RebuildSealsMaster(master, masterNames, keyText, first, second);
      RebuildThenOpenGivesMaster(master, masterNames, keyText, first, second);
    }
    if err.None? {
      err := vault.NewEncryption(masterNames, second);
    }
  }
}
