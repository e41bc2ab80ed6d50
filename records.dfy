/**
 * The rows of the ledger DB.csv, as csv.reader with delimiter ';' gives them:
 * the image file name, the person it belongs to, then one minutiae field per
 * binarization method, in the order the methods were enrolled. add_minutiae
 * appends a field to the row of an image; the gallery scan reads the image,
 * the person and the field of the binarization method in use.
 */
module Records {
  import opened Wrappers
  import opened Images
  import opened Coordinates
  import opened Preprocess

  type Row = seq<string>

  /** The row starts with the image's name (an empty row describes nothing). */
  predicate Describes(row: Row, image: string) {
    |row| > 0 && row[0] == image
  }

  /** The position of the first row that describes the image, if any. */
  function FirstDescribing(data: seq<Row>, image: string): (r: Option<nat>)
    ensures r.Some? ==> r.value < |data| && Describes(data[r.value], image)
    ensures r.Some? ==> forall k :: 0 <= k < r.value ==> !Describes(data[k], image)
    ensures r.None? <==> forall k :: 0 <= k < |data| ==> !Describes(data[k], image)
    decreases |data|
  {
    if |data| == 0 then None
    else if Describes(data[0], image) then Some(0)
    else
      match FirstDescribing(data[1..], image)
      case None => None
      case Some(k) => Some(k + 1)
  }

  /** The rows with field appended to the first row that describes the image. */
  function Appended(data: seq<Row>, image: string, field: string): (r: seq<Row>)
    ensures |r| == |data|
    ensures forall k :: 0 <= k < |data| ==>
      r[k] == (if FirstDescribing(data, image) == Some(k) then data[k] + [field] else data[k])
    ensures FirstDescribing(r, image) == FirstDescribing(data, image)
  {
    match FirstDescribing(data, image)
    case None => data
    case Some(i) =>
      var r := data[i := data[i] + [field]];
      FirstDescribingAt(r, image, i);
      r
  }

  /**
   * add_minutiae on the rows read from the ledger: the text of the pairs is
   * appended to the first row that describes the image, and every other row is
   * written back as it was. Without such a row the ledger is unchanged.
   */
  method AddMinutiae(data: seq<Row>, image: string, minutiae: seq<Point>) returns (updated: seq<Row>)
    ensures updated == Appended(data, image, ShowPoints(minutiae))
    ensures FirstDescribing(data, image).None? ==> updated == data
  {
    updated := data;
    var i := 0;
    while i < |data|
      invariant 0 <= i <= |data|
      invariant forall k :: 0 <= k < i ==> !Describes(data[k], image)
    {
      if Describes(data[i], image) {
        FirstDescribingAt(data, image, i);
        updated := data[i := data[i] + [ShowPoints(minutiae)]];
        return;
      }
      i := i + 1;
    }
  }

  /** The field of a row that holds the minutiae of a binarization method. */
  function Column(m: Binarization): (c: nat)
    ensures 2 <= c <= 4
  {
    match m
    case Otsu => 2
    case AdaptiveMean => 3
    case AdaptiveGaussian => 4
  }

  lemma ColumnsDiffer(m: Binarization, n: Binarization)
    ensures Column(m) == Column(n) <==> m == n
  {
  }

  /** What the gallery scan takes from one row of the ledger. */
  datatype Entry = Entry(image: string, person: string, minutiae: seq<Point>)

  /**
   * The start of the gallery scan's loop body: elt[0] and elt[1], then the field of
   * the binarization method, then its reading with ast.literal_eval. A short row
   * raises IndexError, a name that is none of the three methods leaves the field
   * unbound, and a field that is not a list of pairs is refused.
   */
  function ReadRow(row: Row, binarization: string): (r: Result<Entry>)
    ensures |row| < 2 ==> r == Failure(IndexError)
    ensures |row| >= 2 && BinarizationNamed(binarization).None? ==> r == Failure(UnboundMinutiae)
    ensures r.Success? <==>
      (|row| >= 2 && BinarizationNamed(binarization).Some? &&
       Column(BinarizationNamed(binarization).value) < |row| &&
       ParsePoints(row[Column(BinarizationNamed(binarization).value)]).Some?)
    ensures r.Success? ==> r.value.image == row[0] && r.value.person == row[1]
  {
    if |row| < 2 then Failure(IndexError)
    else
      match BinarizationNamed(binarization)
      case None => Failure(UnboundMinutiae)
      case Some(m) =>
        if Column(m) >= |row| then Failure(IndexError)
        else
          match ParsePoints(row[Column(m)])
          case None => Failure(MalformedMinutiae)
          case Some(points) => Success(Entry(row[0], row[1], points))
  }

  /**
   * Enrolment and recognition agree: a row of image and person to which the three
   * methods' minutiae were appended in method order gives back, for each method,
   * the very pairs enrolled for it.
   */
  lemma ReadEnrolledRow(image: string, person: string, otsu: seq<Point>, mean: seq<Point>, gaussian: seq<Point>, m: Binarization)
    ensures var row := [image, person, ShowPoints(otsu), ShowPoints(mean), ShowPoints(gaussian)];
      ReadRow(row, BinarizationName(m)) ==
        Success(Entry(image, person, match m case Otsu => otsu case AdaptiveMean => mean case AdaptiveGaussian => gaussian))
  {
    NamesSelectTheirMethod(m, Laplacian);
    ParseShowPoints(otsu);
    ParseShowPoints(mean);
    ParseShowPoints(gaussian);
  }

  /**
   * Enrolment through add_minutiae: once the three methods' pairs are appended in
   * method order to the row [image, person], reading that row back gives, for
   * each method, the pairs enrolled for it.
   */
  lemma EnrolThenRead(data: seq<Row>, image: string, person: string, otsu: seq<Point>, mean: seq<Point>, gaussian: seq<Point>, m: Binarization)
    requires FirstDescribing(data, image).Some? && data[FirstDescribing(data, image).value] == [image, person]
    ensures var after := Appended(Appended(Appended(data, image, ShowPoints(otsu)), image, ShowPoints(mean)), image, ShowPoints(gaussian));
      FirstDescribing(after, image) == FirstDescribing(data, image) &&
      ReadRow(after[FirstDescribing(data, image).value], BinarizationName(m)) ==
        Success(Entry(image, person, match m case Otsu => otsu case AdaptiveMean => mean case AdaptiveGaussian => gaussian))
  {
    var i := FirstDescribing(data, image).value;
    var first := Appended(data, image, ShowPoints(otsu));
    AppendedAt(data, image, ShowPoints(otsu), i);
    var second := Appended(first, image, ShowPoints(mean));
    AppendedAt(first, image, ShowPoints(mean), i);
    var after := Appended(second, image, ShowPoints(gaussian));
    AppendedAt(second, image, ShowPoints(gaussian), i);
    AppendThree(data[i], image, person, ShowPoints(otsu), ShowPoints(mean), ShowPoints(gaussian));
    ReadEnrolledRow(image, person, otsu, mean, gaussian, m);
  }

  lemma AppendThree<T>(s: seq<T>, a: T, b: T, x: T, y: T, z: T)
    requires s == [a, b]
    ensures s + [x] + [y] + [z] == [a, b, x, y, z]
  {
  }

  lemma AppendedAt(data: seq<Row>, image: string, field: string, i: nat)
    requires FirstDescribing(data, image) == Some(i)
    ensures FirstDescribing(Appended(data, image, field), image) == Some(i)
    ensures i < |data| && Appended(data, image, field)[i] == data[i] + [field]
  {
  }

  lemma FirstDescribingAt(data: seq<Row>, image: string, i: nat)
    requires i < |data| && Describes(data[i], image)
    requires forall k :: 0 <= k < i ==> !Describes(data[k], image)
    ensures FirstDescribing(data, image) == Some(i)
  {
    assert FirstDescribing(data, image).Some?;
  }
}
