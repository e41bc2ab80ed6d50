# Fingerprint recognition: a Dafny model

This project models the recognition engine of the fingerprint identification program.
It covers `src/project.py`: binarization, skeletonization, the crossing-number scan for
minutiae, the ledger of enrolled minutiae, patch matching by template means and their
variance, the gallery scan, and `main`. It also covers the encrypted picture vault of
`src/cryptage.py`.

Modules:

- `Wrappers` holds `Option`, `Result`, and the errors the Python code raises.
- `Images` holds rectangular pixel grids, `array2` helpers, Python slicing, the
  `cv2.rectangle` marker, `copy()` and `cv2.convertScaleAbs`.
- `Preprocess` holds `binarize_image` and `skeletonize_image`. The threshold methods and
  the non-Laplacian filters are oracles; the Laplacian kernel, the clamp to [0, 255] and
  the inversion are modelled exactly.
- `Minutiae` holds `crossing_number` as an imperative scan over an `array2`, which marks
  the image in place.
- `Matching` holds `variance_calculation` and `match_template`. The variance is NaN for
  a single sample or a NaN sample, and zero for no samples. The OpenCV score map and its
  extrema are an oracle.
- `Coordinates` holds the text form of a minutiae list, as `str` writes it and as
  `ast.literal_eval` reads it back.
- `Records` holds the `DB.csv` rows, `add_minutiae`, and the reading of one row by the
  gallery scan.
- `Base64Url` holds the key text, in the URL-safe alphabet of section 5 of RFC 4648.
- `Vault` holds the folder and its key file. This is `cryptage.py` as a class
  `Folder` whose methods rewrite the files and the key file in place. Each method is
  proved against a functional specification: `Swept` runs one pass over the listing, and
  `Opened` and `Rotated` start from the key file.
- `Recognition` holds `fingerprint_recognition` and `main`.

Fernet is modelled abstractly. A token is `Sealed(key, content)`, and decryption succeeds
exactly when the key matches. The key is stored as its URL-safe base 64 text, and
the cipher is built from the decoding of that text.

The model follows the code where its behaviour is easy to misread:

- One `try` wraps the whole walk over the ledger rows. A malformed row, an unknown
  binarization name, or an unreadable image therefore ends the scan, and the rows after
  it are never compared. A malformed record is not skipped.
- The handler for a missing ledger prints `file_path`. That is a global set only when
  the program runs as a script, so otherwise a `NameError` escapes. In that case the
  images stay decrypted, because the re-encryption loop is skipped. A missing ledger
  therefore does not always end in an empty result with the folder sealed again.
- The crossing number sums the 7 differences p1-p2 … p7-p8. It leaves out the
  closing pair p8-p1.
- At the end of `fingerprint_recognition`, each image is re-encrypted with
  `encryptionImage("", path, False)`. That call generates and stores a new key for every
  image, so the key file ends up opening the last image only. `main` then rebuilds the
  folder from `DB_original`, which hides this for the next run
  (`Vault.StoredKeyOpensLastImageOnly`, `Vault.RebuildThenOpenGivesMaster`).

## Model

| member | source | states |
|---|---|---|
| Preprocess.BinarizationNamed | src/project.py:99-106 | exactly the three method names are recognised, and each maps to the method whose name it is |
| Preprocess.SkeletonizationNamed | src/project.py:128-155 | exactly the five method names are recognised, and each maps to the method whose name it is |
| Preprocess.NamesSelectTheirMethod | src/project.py:99-106 | the name of each method selects that method, for both binarization and skeletonization |
| Preprocess.Binarize | src/project.py:96-109 | fails with the unknown name iff it is none of the three; otherwise the image has the same size, every pixel is 0 or 255, and a pixel is 255 exactly when it exceeds the method's threshold |
| Preprocess.LaplacianAt | src/project.py:128-135 | the value is the convolution of the image with the kernel [[0,-1,0],[-1,4,-1],[0,-1,0]], zero outside the image (mode 'same') |
| Preprocess.Clamp | src/project.py:158-159 | the result lies in [0, 255], is unchanged inside it, 255 above and 0 below |
| Preprocess.SkeletonPixelIs8Bit | src/project.py:158-162 | after clamping and inversion a pixel is 8-bit; a raw value <= 0 gives 255 and >= 255 gives 0 |
| Preprocess.LaplacianOfBinaryIsBinary | src/project.py:128-135 | on a 0/255 image the Laplacian is a multiple of 255 in [-1020, 1020], and its skeleton pixel is 0 or 255 |
| Preprocess.ClampInPlace | src/project.py:158-159 | every pixel is replaced by its clamp into [0, 255] |
| Preprocess.Skeletonize | src/project.py:111-165 | fails with the unknown name iff it is none of the five; otherwise a new image of the same size whose pixels are 255 minus the clamped raw filter output, all 8-bit |
| Preprocess.Invert | src/project.py:162 | a new image of the same size with every pixel p replaced by 255 - p |
| Images.SliceBound | src/project.py:446-447 | a Python slice bound is clipped into [0, n] and kept when already inside |
| Images.Slice | src/project.py:446-447 | within bounds the slice is the ordinary subsequence |
| Images.Crop | src/project.py:446-447 | within bounds the 2-D slice is the rectangle of the image between the bounds |
| Images.Mark | src/project.py:463-464 | cv2.rectangle changes no pixel outside the marker window around the point, and a changed pixel becomes 0 |
| Images.Copy | src/project.py:391 | a new array of the same size with the same pixels |
| Images.ScaleAbsPixel | src/project.py:434 | the result is 8-bit, and an 8-bit value is kept |
| Images.ScaleAbs | src/project.py:434 | a new array of the same size, pixel by pixel the 8-bit conversion, hence all 8-bit |
| Minutiae.StepSumScales | src/project.py:247-257 | the sum of the differences of the pixels divided by 255 is the integer sum of absolute differences divided by 255 |
| Minutiae.CrossingIsScaledChainSum | src/project.py:257 | the crossing number equals the integer chain sum divided by 510 |
| Minutiae.Classify | src/project.py:260-263 | a termination iff the chain sum is 510 (crossing 1), a bifurcation iff it is 1530 (crossing 3) |
| Minutiae.BinaryAbsSum | src/project.py:247-257 | on 0/255 pixels the sum of absolute differences is 255 times the number of transitions |
| Minutiae.BinaryClassification | src/project.py:247-263 | on a 0/255 ring: a bifurcation iff 6 transitions along p1..p8, a termination iff 2, and the centre pixel never matters |
| Minutiae.OpenRingMissesClosedBifurcation | src/project.py:257 | because the pair p8-p1 is left out, a ring with 6 transitions around the closed circle whose p8 differs from p1 is classified as no minutia |
| Minutiae.FlatRingIsOrdinary | src/project.py:257-273 | a neighbourhood of equal pixels is never a minutia |
| Minutiae.AroundCircles | src/project.py:246-254 | p1 … p8 are the eight neighbours of p0, each exactly once, each next to the one before, and p8 next to p1 |
| Minutiae.RingAt | src/project.py:246-254 | the ring read from the array has p0 at (i, j) and p1 … p8 at the neighbours given by AroundCircles, in that order |
| Minutiae.RingIn | src/project.py:246-254 | the same ring read from a grid of pixels |
| Minutiae.UniformHasNoMinutia | src/project.py:257-263 | an image of one value has no pixel whose ring is a minutia |
| Minutiae.RecordedFacts | src/project.py:238-282 | every recorded point is inside the scanned border with a minutia ring, and the record is in scan order |
| Minutiae.BifurcationsOrdered | src/project.py:259-266 | the bifurcations kept are points of the record, in scan order |
| Minutiae.ScanPixel | src/project.py:243-280 | one visit of a pixel keeps the scan invariant: the record holds exactly the minutiae found so far, faithful to the unmarked image, and the column moves on |
| Minutiae.ScanRow | src/project.py:236-282 | a row keeps the scan invariant, and the next row is one down, or four down after a row that held a minutia |
| Minutiae.ScanningEnds | src/project.py:216-285 | past the last row the record is sound (every recorded point is an interior minutia, in scan order); it is empty iff the image has no minutia; otherwise it starts at the image's first minutia in scan order |
| Minutiae.CrossingNumber | src/project.py:213-285 | the minutiae count is the number of detected points and is 0 iff the image has no minutia; otherwise the first detected point is the first minutia of the image in row-major order; every detected ring is a minutia, read from the original pixels when no earlier marker reached it; the bifurcation list is exactly the detected bifurcations, interior and in scan order; pixels change only inside a marker window of a bifurcation, and only to 0 |
| Matching.SquaredDeviations | src/project.py:301-302 | the sum of squared deviations is never negative |
| Matching.Variance | src/project.py:287-304 | the sample variance (divisor n-1) is never negative |
| Matching.VarianceOf | src/project.py:287-304 | no samples give 0 (numpy's 0 / -1); otherwise the variance is a real number iff there are at least two samples and none is NaN, and it is then the sample variance of the values |
| Matching.NoDeviationIffAllAt | src/project.py:301-302 | the squared deviations from m sum to 0 iff every sample equals m |
| Matching.VarianceZeroIff | src/project.py:287-304 | the variance is 0 iff all samples are equal |
| Matching.BestLocation | src/project.py:343-348 | the two squared-difference methods take the location of the minimum score, the other three that of the maximum |
| Matching.RegionMean | src/project.py:350-360 | the mean is NaN exactly when the window is empty |
| Matching.MethodMean | src/project.py:336-361 | fails exactly when OpenCV fails for the method, and then with OpenCV's error |
| Matching.MeansFor | src/project.py:334-361 | succeeds iff every method's match succeeds, and then holds one mean per method, in order; a failure is OpenCV's error |
| Matching.MatchTemplate | src/project.py:306-363 | the means for the five methods in the source's order, stopping at an OpenCV failure |
| Matching.MeansForStopsAtFailure | src/project.py:334-342 | a failure for any one method fails the whole list |
| Matching.UniformRegionMean | src/project.py:358-360 | in a uniform image the mean of any window is that pixel value, or NaN for an empty window |
| Matching.Confirmed | src/project.py:449-458 | fails exactly when one of the two lists of means fails, and then with OpenCV's error |
| Matching.ConfirmedIffConstantMeans | src/project.py:449-458 | a minutia is confirmed iff both vectors of means are free of NaN and constant |
| Matching.UniformQueryConfirms | src/project.py:441-467 | on a uniform query skeleton every minutia with NaN-free means is confirmed |
| Coordinates.ShowNat | src/project.py:198-205 | the text of a natural number is a nonempty run of digits without a leading zero |
| Coordinates.ValueOfShowNat | src/project.py:426 | reading the digits of a number gives the number back |
| Coordinates.ParseShowInt | src/project.py:426 | reading the text of an integer gives it back, together with the rest of the text |
| Coordinates.ParseShowPoint | src/project.py:426 | reading the text of a pair "(x, y)" gives the pair back, together with the rest |
| Coordinates.ParseShowItems | src/project.py:426 | reading what follows the opening bracket of a nonempty list of pairs gives the list back |
| Coordinates.ParseShowPoints | src/project.py:198-205 | what add_minutiae writes reads back as the same pairs in the same order |
| Base64Url.SymbolValue | src/cryptage.py:109 | only alphabet characters have a value, and the symbol of that value is the character |
| Base64Url.SymbolValueOfSymbol | src/cryptage.py:109 | each 6-bit value's symbol decodes to that value |
| Base64Url.Encode | src/cryptage.py:54 | the encoded text has a length that is a multiple of four |
| Base64Url.GroupRoundTrip | src/cryptage.py:54 | three bytes spread over four sextets come back as the same three bytes |
| Base64Url.EncodeOneByte | src/cryptage.py:54 | a final single byte, written with "==" padding, decodes back to itself |
| Base64Url.EncodeTwoBytes | src/cryptage.py:54 | two final bytes, written with "=" padding, decode back to themselves |
| Base64Url.DecodeEncode | src/cryptage.py:54 | decoding the text of any byte string gives back that byte string |
| Base64Url.DecodeLength | src/cryptage.py:109 | a text that decodes is whole groups of four symbols, and gives three bytes per group, fewer only for a padded last group |
| Vault.Seal | src/cryptage.py:109-112 | the token is sealed under the key over the given content |
| Vault.Unseal | src/cryptage.py:161-164 | succeeds iff the token was sealed under this key, and sealing the result again gives the token; otherwise InvalidToken |
| Vault.CipherKey | src/cryptage.py:109 | a cipher is built iff the key text decodes; otherwise BadKeyText |
| Vault.CipherKeyOfWritten | src/cryptage.py:39-54 | the cipher built from the text written for a key uses exactly that key |
| Vault.ReadKey | src/cryptage.py:56-74 | succeeds iff the key file exists, giving its text; otherwise FileNotFound on key.txt |
| Vault.WriteKey | src/cryptage.py:39-54 | the files are unchanged, and the key file holds a text whose cipher uses the given key |
| Vault.EncryptImage | src/cryptage.py:102-117 | succeeds iff the image exists and the key text decodes, and then seals that image under it; a failure changes nothing, and a missing image is FileNotFound on its name |
| Vault.EncryptImageFresh | src/cryptage.py:118-140 | the key file always ends holding the new key; succeeds iff the image exists, and then seals it under the new key; otherwise FileNotFound and the files are unchanged |
| Vault.DecryptImage | src/cryptage.py:142-169 | succeeds iff the image exists, the key decodes, and the token was sealed under that key, and then replaces the token by its content; a failure changes nothing; a missing image is FileNotFound, an undecodable key text BadKeyText, and a wrong key InvalidToken |
| Vault.EncryptWithStoredKey | src/cryptage.py:192-195 | with no key file the result is FileNotFound on key.txt and nothing changes; otherwise it is encryption with the stored text |
| Vault.StepFrame | src/cryptage.py:192-195 | one step of a pass keeps the set of files and changes no file other than the one it visits |
| Vault.SweptExtends | src/cryptage.py:190-195 | a pass over one more name is the pass so far followed by one step on that name, skipped for DB.csv or after a failure |
| Vault.SweptFrame | src/cryptage.py:190-195 | a pass over the listing keeps the set of files, and leaves DB.csv and every unlisted file as they were |
| Vault.SweptStopsAtFailure | src/cryptage.py:190-195 | once a pass fails on a file, the rest of the listing changes nothing |
| Vault.EncryptSweepSealsAll | src/cryptage.py:171-195 | with the key file holding k, the pass succeeds, keeps the key file, seals every listed image under k and leaves the other files |
| Vault.RotateSweepRekeys | src/cryptage.py:197-219 | on images sealed under the old key, the pass succeeds and reseals each under the new key; the key file holds the new key iff an image was listed |
| Vault.UnsealSweepOpensAll | src/project.py:401-404 | on images sealed under the stored key, the pass succeeds, keeps the key file and restores every listed image's content |
| Vault.ResealSweepKeyFile | src/project.py:485-488 | the resealing pass succeeds, and the key file ends holding the key generated for the last listed image, or is unchanged if there is none |
| Vault.ResealSweepKeysEach | src/project.py:485-488 | the resealing pass seals the image at position i under the key generated for position i |
| Vault.StoredKeyOpensLastImageOnly | src/project.py:485-488 | after resealing, the stored key opens an image iff its key equals the key of the last image, and then gives its content |
| Vault.Rotated | src/cryptage.py:205 | with no key file newEncryption fails with FileNotFound on key.txt and changes nothing |
| Vault.Opened | src/project.py:390 | with no key file the opening fails with FileNotFound on key.txt and changes nothing |
| Vault.RebuildSealsMaster | src/project.py:566-570 | after the rebuild, encryption and newEncryption both succeed; every master image is sealed under the stored key, and the other files are the master's |
| Vault.RebuildThenOpenGivesMaster | src/project.py:566-570 | after the rebuild, opening the folder succeeds and gives back exactly the master files |
| Vault.Folder.WriteFile | src/cryptage.py:39-54 | the new state is the old one with the key file holding the key |
| Vault.Folder.ReadFile | src/cryptage.py:56-74 | the result is the reading of the key file in the current state |
| Vault.Folder.EncryptionImage | src/cryptage.py:89-140 | the new state and the error are those of encryption with the given or the freshly generated key |
| Vault.Folder.DecryptionImage | src/cryptage.py:142-169 | the new state and the error are those of decryption of the image |
| Vault.Folder.Visit | src/cryptage.py:192-195 | the new state and the error are those of one step of the pass |
| Vault.Folder.Walk | src/cryptage.py:190-195 | the new state and the error are those of the pass over the listing |
| Vault.Folder.Encryption | src/cryptage.py:171-195 | the key file is written, then the encryption pass runs |
| Vault.Folder.NewEncryption | src/cryptage.py:197-219 | the state and the error are those of a rotation to the new key |
| Vault.Folder.Open | src/project.py:390-404 | the state and the error are those of the opening with the stored key |
| Vault.Folder.Restore | src/project.py:567-568 | the files become the master copy, and the key file is kept |
| Records.FirstDescribing | src/project.py:195-196 | the position of the first nonempty row whose first field is the image; None iff there is none |
| Records.Appended | src/project.py:195-198 | same number of rows; only the first row describing the image gains the field; it is still the first describing row |
| Records.AddMinutiae | src/project.py:188-205 | the rows with the text of the pairs appended to the first describing row; unchanged when no row describes the image |
| Records.Column | src/project.py:418-423 | the minutiae column of a method is 2, 3 or 4 |
| Records.ColumnsDiffer | src/project.py:418-423 | two methods share a column iff they are the same method |
| Records.ReadRow | src/project.py:413-426 | a row shorter than 2 is IndexError, and an unknown method leaves the field unbound; the read succeeds iff the row has the method's column and it parses as a list of pairs, giving image = field 0 and person = field 1 |
| Records.ReadEnrolledRow | src/project.py:418-426 | a row [image, person, otsu, mean, gaussian] reads back, for each method, the pairs enrolled for it |
| Records.EnrolThenRead | src/project.py:195-198 | after three add_minutiae calls in method order on the row [image, person], each method reads back its own pairs |
| Recognition.InteriorPatchIsFull | src/project.py:446-447 | around an interior point the patch is the full 11x11 square of the image |
| Recognition.ReadImage | src/project.py:471 | an image missing from the folder reads as None |
| Recognition.BinarizeRead | src/project.py:96-109 | an unknown method is reported before an unreadable image; otherwise the result is the binarization of the image |
| Recognition.OpenedKeepsLedger | src/project.py:401-404 | the opening keeps the set of files and leaves DB.csv as it was |
| Recognition.SkeletonOf | src/project.py:111-165 | the skeleton has the image's size, and each pixel is the 8-bit conversion of the clamped and inverted filter output at that pixel |
| Recognition.Skeleton | src/project.py:429-434 | an unknown binarization is reported first, then an unreadable image, then an unknown skeletonization; a skeleton has the image's size and only 8-bit pixels |
| Recognition.SkeletonPixels | src/project.py:111-165 | an array holding the filter output pixel by pixel holds the skeleton |
| Recognition.BuildSkeleton | src/project.py:432-434 | the preprocessing of one image fails exactly when Skeleton does, with its error, and otherwise gives a fresh array holding the skeleton |
| Recognition.Confirm | src/project.py:449-458 | the verdict is the variance test on both template matches of the patches |
| Recognition.MarkNear | src/project.py:463-464 | only pixels near one of the minutiae change, and only to 0 |
| Recognition.TestMinutia | src/project.py:446-464 | the verdict is the test of the minutia on the images as they stand; without a confirmation both images are unchanged, and otherwise they change only near a minutia, to 0 |
| Recognition.SteadyRejects | src/project.py:441-467 | when no test on the start images confirms, the loop records no confirmation: the images never change, so every verdict is negative |
| Recognition.MatchRecord | src/project.py:438-467 | the count is the number of confirmed verdicts, 0 when wanted <= 0 and at most wanted; it stops at wanted or after the last minutia; each verdict is the test of its minutia on the images it was taken on, and every verdict up to the first confirmation was taken on the unmarked images; a failure is the error of the test of the next minutia, raised before wanted was reached and, with no confirmation before it, taken on the unmarked images; with no confirmation the images are unchanged, and otherwise they change only near a minutia, to 0 |
| Recognition.CompareRow | src/project.py:413-476 | one ledger row: a row that cannot be read fails with its read error, and so does a reference image that cannot be preprocessed; otherwise the verdicts are those of the row's minutiae in order, every one up to the first confirmation on the unmarked query and reference, and the row is accepted iff at least wanted of them confirm, with the row's person and the image read for it; a failed test fails the row with its error; the query changes only to 0 |
| Recognition.CompareThenCopy | src/project.py:413-476 | the row is compared against a query equal to the pristine copy, and a fresh copy of it is returned for the next row |
| Recognition.ComparedKeeps | src/project.py:413-474 | an accepted row could be read, has at least wanted minutiae, and gives the row's person and the image read for its name |
| Recognition.RowRejected | src/project.py:441-474 | a row none of whose minutiae the test confirms on the unmarked query and reference is not kept, and a failing test on it failed on those unmarked images |
| Recognition.Accepted | src/project.py:469-474 | the accepted records, never more than the rows compared, and every record accepted for a row is among them |
| Recognition.ComparedRowsExtends | src/project.py:408-476 | comparing one more row extends the record of the rows compared so far |
| Recognition.WalkFails | src/project.py:479-482 | a row that fails ends the walk, with the rows before it compared in order |
| Recognition.ScanLedger | src/project.py:406-482 | the rows are compared in ledger order, each against the query as given; the walk reaches the last row exactly when no row fails, and otherwise ends at the row whose error it reports; the result lists the accepted rows in order; the caller's skeleton changes only to 0 |
| Recognition.FingerprintRecognition | src/project.py:365-490 | a failure to open the folder, or a missing key file, reaches the caller; with the folder open, a missing ledger is FileNotFound on DB.csv and otherwise the ledger is walked as ScanLedger states; a missing ledger outside script mode fails with the images left decrypted; otherwise the folder is the resealed opening, and the call succeeds iff the resealing does, with the accepted ledger rows in order (none without a ledger) |
| Recognition.Prepare | src/project.py:520-546 | the query's preprocessing fails exactly when Skeleton does, with its error; otherwise a fresh array holds the skeleton, and the counts are those of crossing_number on it: 0 iff it has no minutia, else starting from its first minutia |
| Recognition.Rebuild | src/project.py:566-570 | the folder becomes the master copy with the key file written, encrypted, then re-keyed; when the listing is the master's, it opens back to the master files |
| Recognition.Identify | src/project.py:492-576 | a query whose skeleton cannot be built fails with that error and leaves the folder alone; otherwise the counts are those of crossing_number on the skeleton, the ledger is walked against the skeleton, and the errors of opening, the missing ledger and resealing reach the caller as in fingerprint_recognition; the call succeeds iff all stages do, with the accepted rows; after a successful run, when the listing is the master's, the folder opens back to the master copy |

## Left out

- The interface (Tkinter window, sliders, image display), the timing globals and the
  printed diagnostics are not modelled.
- OpenCV is represented by oracles. This covers the Otsu and adaptive thresholds, the
  Sobel filter, the Zhang-Suen and Guo-Hall thinning, the morphological skeleton, the
  score map of `cv2.matchTemplate` and `cv2.minMaxLoc`, and `cv2.imread`. Their
  numerics are not modelled.
- Images.Mark: only bounds what `cv2.rectangle` may paint (pixels inside the window,
  set to 0). It does not give the exact outline that OpenCV draws.
- The Sobel kernel's division by 4 produces floating-point pixels, and those are not
  modelled. Pixels are integers, and every other float is an exact real.
- Fernet is abstract. There are no real ciphertexts, timestamps or HMAC. Key generation
  is randomness, so keys come in as parameters. The check that the decoded key is 32
  bytes is not modelled.
- Base64Url.Decode: it does not model Python's leniency. `urlsafe_b64decode` drops
  characters outside the alphabet and accepts non-zero trailing bits. The key file only
  ever holds text written by `Encode`.
- Minutiae.CrossingNumber: ties the record to the image through the first minutia and
  the no-minutia case, and reads every recorded ring from the image. It does not say
  which later pixels the scan visits after the skips of four columns and four rows, so it
  does not state that every later minutia outside a skipped stretch is recorded.
- Recognition.MatchRecord: ties each verdict up to the first confirmation to the unmarked
  images. A verdict after a confirmation is tied only to the images it was taken on; those
  carry the marks of Images.Mark, which is itself left abstract. The same holds for
  Recognition.CompareRow.
- Minutiae.Crossing, Recognition.Patch, Recognition.Verdict, Vault.Step, Vault.Swept,
  Coordinates.ShowPoints, Coordinates.ParsePoints and Base64Url.Decode: definitions
  without contracts of their own. Their properties are stated by the lemmas and members
  that use them (Minutiae.CrossingIsScaledChainSum, Recognition.InteriorPatchIsFull,
  Recognition.Confirm, Vault.StepFrame, Vault.SweptExtends, Coordinates.ParseShowPoints,
  Base64Url.DecodeLength and Base64Url.DecodeEncode).
- Coordinates.ParsePoints: reads only the exact form that `str` writes. It does not
  read every literal that `ast.literal_eval` accepts, such as extra spaces, lists
  instead of tuples, or a trailing comma.
- File I/O is a map from names to contents, with the key file as a separate optional
  text. `os.walk` order and recursion become an explicit listing parameter. CSV quoting
  is not modelled: the reader and writer of `DB.csv` are an oracle, and rows are
  sequences of fields.
- The query image of `main` comes in already read, as an optional grid.
- The slider restricts the number of minutiae to 8..17. The model allows any integer.
- `add_minutiae` is modelled on the rows. Its file-not-found and other I/O errors are
  only printed, so they are not modelled.
- `fingerprint_recognition` returns a flat list that alternates persons and images. The
  model returns a list of (person, image) pairs.
- `main` rebuilds the folder with `shutil.rmtree` and `shutil.copytree`. Their failures
  are not modelled, and the master copy is a parameter.
