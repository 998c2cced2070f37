# Camera calibration bookkeeping, modelled in Dafny

This project models the scripts of `opencv_camera_calibration`. They calibrate
a single camera and a stereo pair from chessboard images, and they extract the
images from a video. The OpenCV numerics are treated as oracles. The model
keeps the repository's own logic and proves properties of it:

- **Chessboard detection** (`Chessboard`, src/chessboard.py):
  - the object-point template;
  - which image paths are processed, and in what order;
  - the three index-aligned result lists with their "absent" placeholders.
    An image with no chessboard leaves an absent marker in all three lists. An
    unreadable image leaves nothing.
- **Stereo calibration** (`CalibrateStereo`, src/calibrate_stereo.py):
  - assembling the 4x4 homogeneous transform from R and T, including numpy's
    broadcasting of R and of `T.flatten()`;
  - writing that matrix as four comma-separated lines. This includes the
    thousands-grouping comma that the `0,.14f` format inserts when a value's
    rendered integer part is 1000 or more;
  - rejecting left and right result lists of different lengths;
  - the positional pairing loop that fills the six `_valid` lists.
- **Mono calibration** (`CalibrateCamera`, src/calibrate_camera.py):
  - the image-size consistency loop;
  - dropping the absent placeholders before calibration;
  - the ORB-SLAM3 settings writer: shape checks, which matrix or coefficient
    entry feeds which key, and when the literal `0.0` is written;
  - the call site that slices the distortion coefficients.
- **Frame extraction** (`ExtractImagesFromVideo`,
  src/extract_images_from_video.py):
  - the two-counter loop that keeps every `step`-th frame of a finite frame
    stream;
  - the zero-padded names the frames are saved under.
- **Supporting modules:**
  - `Text` covers `str.lower`, `str.endswith`, decimal digits, thousands
    grouping, code-point string order and the sort `list.sort()` performs. It
    also has a `split`, used only to read the written matrix text back;
  - `Paths` covers `os.path.basename`, `splitext` and `join`;
  - `Numbers` holds a few facts about Euclidean division;
  - `Wrappers` holds `Option` and `Result`.

Modelling choices:

- **Oracles.** The OpenCV calls and the file system are parameters:
  - `detect: string -> Detection<P>` stands for imread, findChessboardCorners
    and cornerSubPix;
  - `shapeOf` stands for `imread(path).shape`;
  - the video is an "opened" flag and its sequence of frames;
  - the listed file names are an argument.
- **Numbers.** numpy arrays are `array2<real>`.
  - The rounding of a float to 14 fraction digits is an oracle
    `render: real -> Fixed14`. The text built from those digits is modelled
    exactly.
  - The values written to the ORB-SLAM3 file are symbolic. A field records
    which value is written with how many decimals, or which literal text.
- **Errors.** Python exceptions are `Failure` results or separate outcome
  constructors, checked in the same order as the source checks them.
- **Negative step.** The frame loop keeps Python's floor modulo. A negative
  `step` therefore behaves like `|step|`, and a zero step raises at the first
  frame read rather than being excluded by a precondition.

## Model

| member | source | states |
|---|---|---|
| Paths.Basename | src/chessboard.py:57 | `os.path.basename`: the result has no '/', is a tail of the path, and is preceded by '/' whenever it is shorter than the path |
| Paths.LastDotSpec | src/calibrate_camera.py:115 | the index found holds the last '.' of the name; -1 means the name has no '.' |
| Paths.Extension | src/calibrate_camera.py:115 | `os.path.splitext(name)[1]`: the tail from the last '.', unless only dots come before that '.'; its properties are stated by ExtensionSpec |
| Paths.ExtensionSpec | src/calibrate_camera.py:115 | a name has an extension exactly when some '.' follows a character other than '.'; the extension is then the tail from the last '.', a proper tail of the name whose only '.' is its first character |
| Paths.Join | src/extract_images_from_video.py:38 | `os.path.join`: an absolute second part replaces the first; otherwise the result is the first part, a '/' unless the first part is empty or already ends in one, then the second part |
| Paths.BasenameOfJoin | src/extract_images_from_video.py:38 | the basename of `join(dir, name)` is `name` for any name without '/' |
| Text.Lower | src/chessboard.py:31 | `str.lower()` on ASCII: same length, no capital letter left, every capital moved to its lower-case letter and every other character kept |
| Text.LowerIdempotent | src/chessboard.py:31 | lower-casing an already lower-cased path changes nothing |
| Text.EndsWith | src/chessboard.py:31 | `str.endswith`: true exactly when some tail of the string equals the suffix |
| Text.DecimalDigits | src/extract_images_from_video.py:38 | `str(n)` for n >= 0: at least one character, all decimal digits, and no leading zero except for 0 itself; DigitsRoundTrip and DigitsLength state the rest |
| Text.DigitsRoundTrip | src/extract_images_from_video.py:38 | the decimal digits of n read back as n |
| Text.DigitsLength | src/extract_images_from_video.py:38 | n has at most k+1 digits exactly when n < 10^(k+1) |
| Text.GroupThousands | src/calibrate_stereo.py:19 | the ',' option of `0,.14f`: never shorter than the digits, and no change below four digits; UngroupThousands, GroupThousandsChars and GroupThousandsGroups state the rest |
| Text.UngroupThousands | src/calibrate_stereo.py:19 | deleting the grouping commas from grouped digits gives the digits back |
| Text.GroupThousandsChars | src/calibrate_stereo.py:19 | grouping adds only ',' characters, and adds one exactly when there are more than three digits |
| Text.GroupThousandsGroups | src/calibrate_stereo.py:19 | read between the commas, the grouped digits are a first group of one to three digits followed only by groups of exactly three |
| Text.AtMost | src/chessboard.py:32 | Python's `<=` on `str`: code-point order, a proper prefix coming first; AtMostTotal, AtMostTransitive and AtMostAntisymmetric show it is a total order |
| Text.AtMostTotal | src/chessboard.py:32 | any two paths are comparable |
| Text.AtMostTransitive | src/chessboard.py:32 | the order is transitive |
| Text.AtMostAntisymmetric | src/chessboard.py:32 | two paths each at most the other are equal |
| Text.SortStrings | src/chessboard.py:32 | `list.sort()`: the result is in code-point order and keeps every path exactly as often as before |
| Text.SortedArrangementUnique | src/chessboard.py:32 | two sorted permutations of the same strings are equal, so the model's sort gives the result of `list.sort()` |
| Chessboard.Template | src/chessboard.py:14-16 | the template as a value, rows*cols points long; its layout is stated by TemplateCoversGrid, TemplateOnPlane and TemplatePointsDistinct |
| Chessboard.ObjectPointTemplate | src/chessboard.py:14-16 | the template has rows*cols points, and point k is (k mod cols, k div cols, 0) scaled by the square size |
| Chessboard.WriteGridLayout | src/chessboard.py:15 | the in-place write of the `mgrid(...).T.reshape(-1, 2)` layout into the x and y columns of a zeroed array |
| Chessboard.ScaleInPlace | src/chessboard.py:16 | `object_points *= corner_size`: every point is scaled, and nothing else changes |
| Chessboard.TemplateLayout | src/chessboard.py:15 | flat index k of the transposed mgrid is (k mod cols, k div cols) |
| Chessboard.TemplateOnPlane | src/chessboard.py:14-16 | every template point has z = 0 |
| Chessboard.TemplateCoversGrid | src/chessboard.py:14-16 | each grid corner (row r, column c) is template point r*cols + c |
| Chessboard.TemplatePointsDistinct | src/chessboard.py:14-16 | for a non-zero square size, distinct indices give distinct template points |
| Chessboard.IsImagePath | src/chessboard.py:30-31 | a path is an image path when its lower-cased form ends with one of `.jpg`, `.jpeg`, `.png`, `.bmp`, `.tiff`, `.tif`; ImagePathIgnoresCase and ImagePathBySuffix state its properties |
| Chessboard.ImagePathIgnoresCase | src/chessboard.py:31 | the test ignores case: a path and its lower-cased form are judged alike |
| Chessboard.ImagePathBySuffix | src/chessboard.py:30-31 | a path ending in any listed extension, in any mix of cases, is an image path |
| Chessboard.ImagePaths | src/chessboard.py:30-31 | the filter keeps each path with an image extension (case-insensitive) exactly as often as glob listed it, and drops every other path |
| Chessboard.ProcessingOrder | src/chessboard.py:30-32 | the processed paths are in code-point order and are the image-extension paths, each as often as glob listed it |
| Chessboard.ProcessingOrderSpec | src/chessboard.py:30-32 | the processed paths are sorted and are exactly the image-extension paths, with their multiplicities; a path is processed exactly when it was listed and has an image extension |
| Chessboard.NoImagesNothingRead | src/chessboard.py:30-35 | files that all lack an image extension give an empty processing order, hence three empty lists rather than None |
| Chessboard.ReadablePaths | src/chessboard.py:37-40 | unreadable images are skipped: each readable path is kept exactly as often as it was processed, and no unreadable path is kept |
| Chessboard.ReadablePathsFrom | src/chessboard.py:35-40 | every path that leaves an entry is a processed path that imread could open |
| Chessboard.ReadablePathsAll | src/chessboard.py:37-40 | every processed path leaves an entry exactly when no image is unreadable |
| Chessboard.ReadablePathsSorted | src/chessboard.py:32-40 | the entries follow the sorted order of their paths |
| Chessboard.Accumulate | src/chessboard.py:35-70 | the three result lists always have equal length |
| Chessboard.AccumulateRecords | src/chessboard.py:35-70 | position k of the lists records the k-th readable path: its corners, the shared template and its basename on detection, and three absent markers otherwise |
| Chessboard.RecordsAligned | src/chessboard.py:59-70 | lists built this way have their absent markers at the same positions |
| Chessboard.AccumulateDetections | src/chessboard.py:35-70 | the append loop computes `Accumulate` over the sorted paths |
| Chessboard.DetectChessboardCorners | src/chessboard.py:6-72 | None exactly when glob found nothing; otherwise aligned lists recording, position by position, the readable image paths in sorted order |
| CalibrateStereo.CreateTransformationMatrix | src/calibrate_stereo.py:7-11 | fails exactly when numpy cannot broadcast R (checked first) or `T.flatten()`; otherwise the identity with R in the upper 3x3 block, T in column 3 and last row [0, 0, 0, 1] |
| CalibrateStereo.TransformationActsRigidly | src/calibrate_stereo.py:7-11 | for a 3x3 R and a 3x1 T the matrix maps (p, 1) to (R p + T, 1) |
| CalibrateStereo.FormatFixed | src/calibrate_stereo.py:19 | the `0,.14f` text of a rounded value: sign, grouped integer digits, '.', 14 fraction digits; ParseFormatRoundTrip and FormatFixedChars state its properties |
| CalibrateStereo.ParseFormatRoundTrip | src/calibrate_stereo.py:19 | every `0,.14f` field reads back as the rounded value it was written from |
| CalibrateStereo.FormatFixedChars | src/calibrate_stereo.py:19 | a field never holds a line break, and holds a ',' exactly when its integer part is 1000 or more |
| CalibrateStereo.WriteTransformationMatrixToFile | src/calibrate_stereo.py:13-22 | a matrix that is not 4x4 is rejected before anything is written; otherwise the text is the four matrix lines |
| CalibrateStereo.WriteRow | src/calibrate_stereo.py:18-21 | the inner loop writes row i's four fields with a ',' after each of the first three |
| CalibrateStereo.LineFields | src/calibrate_stereo.py:18-21 | a line is its four fields separated by three commas |
| CalibrateStereo.LineHasNoBreak | src/calibrate_stereo.py:18-22 | no line holds a line break of its own |
| CalibrateStereo.MatrixText | src/calibrate_stereo.py:16-22 | the text the writer leaves: each row's line followed by a line break; MatrixTextTerminated, MatrixTextSplits and WrittenLines state its properties |
| CalibrateStereo.MatrixTextTerminated | src/calibrate_stereo.py:16-22 | the text is the row lines, each followed by one line break |
| CalibrateStereo.MatrixTextSplits | src/calibrate_stereo.py:17-22 | splitting the written lines at line breaks gives back the lines |
| CalibrateStereo.TerminatedSplits | src/calibrate_stereo.py:17-22 | lines that hold no line break, each followed by one, split at line breaks back into those lines, then whatever follows |
| CalibrateStereo.WrittenLines | src/calibrate_stereo.py:16-22 | the file splits at line breaks into the four row lines and an empty tail |
| CalibrateStereo.UngroupedLineSplits | src/calibrate_stereo.py:18-21 | while a row's integer parts stay below 1000, its line splits at ',' into its four fields, and each reads back as its value |
| CalibrateStereo.GroupedLineOversplits | src/calibrate_stereo.py:19 | one value whose rendered integer part is 1000 or more makes its line split into more than four pieces |
| CalibrateStereo.KeptPairs | src/calibrate_stereo.py:73-76 | the kept positions are valid pair indices |
| CalibrateStereo.KeptPairsSpec | src/calibrate_stereo.py:73-82 | pair i is kept exactly when both image entries at i are present; kept positions are strictly increasing and at most `number_of_pairs` in number |
| CalibrateStereo.PairedUpToPicks | src/calibrate_stereo.py:73-82 | each of the six lists the loop builds is its input read at the kept positions |
| CalibrateStereo.PairViews | src/calibrate_stereo.py:58-82 | unequal result counts fail with both counts; otherwise the six lists are their inputs read at the kept positions |
| CalibrateStereo.PairedViewsPresent | src/calibrate_stereo.py:73-82 | for detector output, every entry handed to the solver is present, although only the image points are tested |
| CalibrateCamera.Considered | src/calibrate_camera.py:115-117 | a file is looked at only when its `splitext` extension is `.jpg`, `.JPG`, `.png` or `.PNG`, case-sensitively; FirstConsidered and CheckImageSizes are stated in its terms |
| CalibrateCamera.FirstConsidered | src/calibrate_camera.py:114-121 | the first file with one of the four extensions, the one that fixes `image_size` |
| CalibrateCamera.CheckImageSizes | src/calibrate_camera.py:110-125 | succeeds exactly when every considered image is readable and all have one size. The size is the first image's, or (0, 0) when no file is considered. A failure names the first considered image that is unreadable or of another size |
| CalibrateCamera.UniformUpToAll | src/calibrate_camera.py:114-125 | the loop's running predicate means that every considered file seen so far has the size |
| CalibrateCamera.FailureBreaksUniformity | src/calibrate_camera.py:120-124 | an image that raises rules out a common size |
| CalibrateCamera.PresentPositions | src/calibrate_camera.py:134-136 | the positions listed hold present entries |
| CalibrateCamera.DropAbsent | src/calibrate_camera.py:134-136 | the list comprehension that drops the None entries; DropAbsentSpec states what it keeps |
| CalibrateCamera.DropAbsentSpec | src/calibrate_camera.py:134-136 | the filter keeps exactly the present entries, in order: entry k is the entry at the k-th present position |
| CalibrateCamera.SamePlaceholders | src/calibrate_camera.py:134-136 | lists with absent markers at the same positions keep the same positions |
| CalibrateCamera.DropAbsentAligned | src/calibrate_camera.py:134-136 | for detector output, the three filtered lists have equal length, and their k-th entries come from the same image |
| CalibrateCamera.WriteOrbSlam3MonoYamlConfig | src/calibrate_camera.py:28-85 | a camera matrix that is not 3x3 raises first; then a distortion shape other than (1, 4), (1, 5) or (1, 8) raises; otherwise the writes are the preamble, the 13 computed entries and the constant settings, in order |
| CalibrateCamera.ConfigFile | src/calibrate_camera.py:34-85 | the writes of a successful call as values: the preamble, the intrinsics, the distortion entries, the image size and the constant settings; ConfigValues states what each key gets |
| CalibrateCamera.Name | src/calibrate_camera.py:39-61 | the key text each entry is written under, including the misspelled `Camera.1p1` and `Camera.1p2`; NamesDistinct states its property |
| CalibrateCamera.NamesDistinct | src/calibrate_camera.py:39-61 | distinct keys are written under distinct names, so finding a value by key, as ValueOf does, is finding it by its written name |
| CalibrateCamera.ValueOfFirst | src/calibrate_camera.py:39-61 | the first entry written under a key is the value a reader of the file finds there |
| CalibrateCamera.ValueOfConcat | src/calibrate_camera.py:34-85 | for writes made in two runs, a key's value comes from the first run when that run writes it, and otherwise from the second |
| CalibrateCamera.ConfigValues | src/calibrate_camera.py:39-61 | fx, fy, cx, cy come from K[0,0], K[1,1], K[0,2], K[1,2]. k1, k2, p1, p2 come from columns 0-3; the misspelled fallback keys never appear. k3 comes from column 4, or is the literal 0.0 for four columns. width and newWidth are `image_size[0]`, height and newHeight `image_size[1]` |
| CalibrateCamera.EntriesValues | src/calibrate_camera.py:39-61 | the 13 computed entries give fx, fy, cx, cy, k1, k2, p1, p2, k3, width, height, newWidth and newHeight the values listed under ConfigValues, stated on plain values |
| CalibrateCamera.Distortion | src/calibrate_camera.py:43-56 | the distortion writes: k1 and k2, then p1, p2 and k3 from their columns when the row is long enough, else the literal 0.0 (p1 and p2 under the misspelled fallback keys); DistortionValues states the values |
| CalibrateCamera.DistortionValues | src/calibrate_camera.py:43-56 | for a row of 4, 5 or 8 coefficients, k1, k2, p1, p2 come from columns 0-3, k3 from column 4 or the literal 0.0, and no other key is written |
| CalibrateCamera.FallbacksAbsent | src/calibrate_camera.py:45-52 | with four or more coefficients, neither misspelled fallback key `Camera.1p1` nor `Camera.1p2` is written |
| CalibrateCamera.SliceColumns | src/calibrate_camera.py:188 | `D[:, lo:hi]`: the columns lo up to hi, clipped to the array |
| CalibrateCamera.WriteCalibrationConfig | src/calibrate_camera.py:188 | as written: a K that is not 3x3 fails first; with a 3x3 K, success exactly when D is one row of at least five coefficients; then k1, k2, p1, p2 get columns 1-4 and k3 is always 0.0 |
| CalibrateCamera.WriteCalibrationConfigCorrected | src/calibrate_camera.py:188 | with `distortion[:, 0:5]`: a K that is not 3x3 fails first; with a 3x3 K, success exactly when D is one row of at least four; then k1, k2, p1, p2 get columns 0-3, and k3 gets column 4 or 0.0 |
| ExtractImagesFromVideo.PyMod | src/extract_images_from_video.py:37 | Python's `%`: the remainder has the divisor's sign, `a - a % b` is a multiple of b, and it is 0 exactly when abs(b) divides a |
| ExtractImagesFromVideo.ZeroPadded | src/extract_images_from_video.py:38 | `:05d` gives digits, at least one of them and at least the width; a counter with at least `width` digits is written unpadded |
| ExtractImagesFromVideo.ZeroPaddedValue | src/extract_images_from_video.py:38 | the padded digits read back as the counter |
| ExtractImagesFromVideo.ZeroPaddedWidth | src/extract_images_from_video.py:38 | the padded digits are exactly `width` long (five here) while the counter is below 10^width |
| ExtractImagesFromVideo.FrameFileName | src/extract_images_from_video.py:38 | `f"{prefix}_{saved_idx:05d}.jpg"`; SavedIndexRoundTrip and FrameFileNamesDistinct state its properties |
| ExtractImagesFromVideo.SavedIndexRoundTrip | src/extract_images_from_video.py:38 | the counter can be read back out of every frame file name, and the name holds a '/' only where the prefix does |
| ExtractImagesFromVideo.FrameFileNamesDistinct | src/extract_images_from_video.py:38-41 | different counters give different file names |
| ExtractImagesFromVideo.JoinInjective | src/extract_images_from_video.py:38 | joining one directory with two names that agree on being absolute gives equal paths only for equal names |
| ExtractImagesFromVideo.FramePath | src/extract_images_from_video.py:38 | the path a saved frame is written to, `os.path.join(output_dir, name)`; FramePathBasename and FramePathsDistinct state its properties |
| ExtractImagesFromVideo.FramePathBasename | src/extract_images_from_video.py:38 | with a prefix free of '/', the k-th saved frame is a file named exactly by its frame file name |
| ExtractImagesFromVideo.FramePathsDistinct | src/extract_images_from_video.py:38-41 | no saved frame is written over another |
| ExtractImagesFromVideo.CeilDivStep | src/extract_images_from_video.py:37-43 | one more frame raises ⌈n/s⌉ by one exactly when n is a multiple of s, and that frame is the ⌈n/s⌉-th multiple |
| ExtractImagesFromVideo.ExtractFrames | src/extract_images_from_video.py:21-46 | an unopened capture returns at once. A zero step raises at the first frame read. Otherwise every frame is read, ⌈N/abs(step)⌉ frames are saved, and the k-th saved file is frame k·abs(step) under name k |
| ExtractImagesFromVideo.SavedAreTheMultiples | src/extract_images_from_video.py:37-43 | the saved frames are exactly the frames whose index is a multiple of the step: each saved index is a frame of the video, and each multiple i is saved as file i / step |

## Left out

- OpenCV numerics: findChessboardCorners, cornerSubPix, calibrateCameraExtended, stereoCalibrateExtended, projectPoints and `np.linalg.inv`. Detection is the `detect` oracle; the solvers are not modelled.
- The reprojection RMSE helpers (`compute_reprojection_residuals`, `compute_per_view_rmse`, `compute_total_rmse`). They are floating-point numerics with `sqrt`.
- File system and image I/O:
  - `glob`, `os.listdir` with its `isfile` filter, `os.path.exists` and `os.makedirs`;
  - `imread` and `imwrite`, `VideoCapture`, and FileStorage reads and writes;
  - the calibration report.

  Their results are parameters of the model. Its written text is a value, not a file.
- Drawing the corners and saving the drawn images into the `corners` directory (src/chessboard.py:21-23, 55-58), and all console printing.
- Default arguments. `extract_frames(step=10, prefix="frame")` (src/extract_images_from_video.py:4), on whose `prefix` default the caller at line 55 relies, and `detect_chessboard_corners(rows=10, cols=12, corner_size=0.073)` (src/chessboard.py:6) are modelled with every argument an explicit parameter.
- argparse handling and the defaults of the mono script, and the script glue that reads the calibration files and calls the functions. This includes the unpacking of a None result, which raises in the scripts.
- The stereo script's computation and inversion of the final transforms, and its file paths.
- Float rounding. `render` and the symbolic `Fixed` fields stand for Python's `.14f`, `.6f` and `.12f` rounding of binary floats.
- NaN and infinities. `render` gives every value a sign, integer digits and 14 fraction digits, so the `nan` and `inf` texts that Python's format writes for those values are not modelled.
- Text.Lower: lower-cases ASCII letters only; Python's `str.lower` also maps non-ASCII letters.
- Chessboard.ObjectPointTemplate: the template is N points, not numpy's (1, N, 3) float32 array, and float32 rounding of the scaled coordinates is not modelled.
- CalibrateStereo.CreateTransformationMatrix: R and T are two-dimensional arrays. One- or three-dimensional inputs, which numpy would also accept, are not modelled.
- CalibrateStereo.PairViews: requires each side's three lists to have equal length, which `DetectChessboardCorners` guarantees. The IndexError for a shorter list is not modelled.
- CalibrateCamera.SliceColumns: returns a copy, whereas numpy's slice is a view of the same memory. No caller writes through it.
- CalibrateCamera.CheckImageSizes: an unreadable considered image ends the check with `ImageUnreadable`. This stands for the AttributeError of `.shape` on None.
- ExtractImagesFromVideo.ExtractFrames: a frame the capture fails to decode in the middle of the video ends the stream, as `ret` false does. A non-integer `step` is not modelled, nor is a failing `imwrite`.

## Findings

| source | as written | input that shows it | evidently intended | confidence | as-written member | corrected member |
|---|---|---|---|---|---|---|
| src/calibrate_camera.py:188 | passes `distortion[:,1:5]`, dropping the first coefficient. The writer then stores the true k2 under k1, p1 under k2, p2 under p1 and k3 under p2, and always writes k3 as 0.0 | a five-coefficient model D = [k1, k2, p1, p2, k3]: the file says `Camera1.k1` = k2 and `Camera1.k3: 0.0` | pass `distortion[:,0:5]`, so each key gets its own coefficient and k3 is column 4 | not executed | CalibrateCamera.WriteCalibrationConfig | CalibrateCamera.WriteCalibrationConfigCorrected |
