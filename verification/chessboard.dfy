/**
 * Chessboard corner detection over a directory of images (src/chessboard.py).
 *
 * The OpenCV work (imread, findChessboardCorners, cornerSubPix) is one oracle
 * `detect` that tells, per path, whether the image was unreadable, held no
 * chessboard, or gave refined corners of the opaque type P. What the model
 * keeps is the bookkeeping: the object-point template, which paths are
 * processed and in what order, and the three index-aligned output lists with
 * their "absent" placeholders.
 */
module Chessboard {
  import opened Wrappers
  import opened Text
  import Paths
  import opened Numbers

  /** A 3-D object point in chessboard coordinates. */
  datatype Point3 = Point3(x: real, y: real, z: real)

  /** What imread + findChessboardCorners + cornerSubPix give for one path. */
  datatype Detection<P> = Detected(corners: P) | NotFound | Unreadable

  /**
   * The three lists the detector returns. `None` is the absent marker
   * (`np.array(None)` for the two point lists, `None` for the file name).
   */
  datatype Detections<P> = Detections(
    imagePoints: seq<Option<P>>,
    objectPoints: seq<Option<seq<Point3>>>,
    fileNames: seq<Option<string>>)
  {
    predicate SameLength() {
      |imagePoints| == |objectPoints| == |fileNames|
    }

    /** The placeholder protocol: equal lengths, and an entry is absent in all three lists or in none. */
    predicate Aligned() {
      SameLength() &&
      forall i :: 0 <= i < |imagePoints| ==>
        (imagePoints[i].None? <==> objectPoints[i].None?) &&
        (imagePoints[i].None? <==> fileNames[i].None?)
    }
  }

  // ---------------------------------------------------------------------------
  // Object-point template
  // ---------------------------------------------------------------------------

  /**
   * `np.mgrid[0:cols, 0:rows].T`: a (rows, cols, 2) grid whose entry [j][i]
   * is (i, j), the two mgrid planes read at [i][j] after the axes are reversed.
   */
  function TransposedGrid(cols: nat, rows: nat): seq<seq<(nat, nat)>> {
    seq(rows, j => seq(cols, i => (i, j)))
  }

  /** `.reshape(-1, 2)`: the rows of a grid laid end to end. */
  function Flatten<T>(s: seq<seq<T>>): seq<T> {
    if s == [] then [] else s[0] + Flatten(s[1..])
  }

  /** Row-major flattening: entry j*c + i of the flat list is entry [j][i]. */
  lemma {:induction false} FlattenRowMajor<T>(s: seq<seq<T>>, c: nat, j: nat, i: nat)
    requires forall r :: 0 <= r < |s| ==> |s[r]| == c
    requires j < |s| && i < c
    ensures |Flatten(s)| == |s| * c
    ensures j * c + i < |Flatten(s)| && Flatten(s)[j * c + i] == s[j][i]
  {
    FlattenLength(s, c);
    var rest := Flatten(s[1..]);
    assert Flatten(s) == s[0] + rest;
    if j > 0 {
      FlattenRowMajor(s[1..], c, j - 1, i);
      assert j * c + i == c + ((j - 1) * c + i);
      assert Flatten(s)[j * c + i] == rest[(j - 1) * c + i];
    }
  }

  lemma {:induction false} FlattenLength<T>(s: seq<seq<T>>, c: nat)
    requires forall r :: 0 <= r < |s| ==> |s[r]| == c
    ensures |Flatten(s)| == |s| * c
  {
    if s != [] {
      FlattenLength(s[1..], c);
      assert |s| * c == c + (|s| - 1) * c;
    }
  }

  /**
   * The grid coordinates of flat index k: column k mod cols, row k div cols,
   * which is what `mgrid(...).T.reshape(-1, 2)` lays out.
   */
  lemma {:induction false} TemplateLayout(cols: nat, rows: nat, k: nat)
    requires k < rows * cols
    ensures cols > 0 && |Flatten(TransposedGrid(cols, rows))| == rows * cols
    ensures Flatten(TransposedGrid(cols, rows))[k] == (k % cols, k / cols)
  {
    var g := TransposedGrid(cols, rows);
    assert cols > 0;
    var j, i := k / cols, k % cols;
    QuotientBelow(k, cols, rows);
    DivModSplit(k, cols);
    FlattenRowMajor(g, cols, j, i);
  }

  /** Template point k: column (k mod cols) and row (k div cols), scaled by the square size, on z = 0. */
  function GridPoint(k: nat, cols: nat, squareSize: real): Point3
    requires cols > 0
  {
    Scaled(UnitGridPoint(k, cols), squareSize)
  }

  /** Template point k before scaling (a square size of 1). */
  function UnitGridPoint(k: nat, cols: nat): Point3
    requires cols > 0
  {
    Point3((k % cols) as real, (k / cols) as real, 0.0)
  }

  /** `p * s` on one row of the float array: every coordinate scaled. */
  function Scaled(p: Point3, s: real): Point3 {
    Point3(p.x * s, p.y * s, p.z * s)
  }

  /**
   * Lines 14-16: a zero-filled (rows*cols) x 3 array, the mgrid layout
   * written into the first two columns, then the whole array scaled in place.
   */
  method ObjectPointTemplate(rows: nat, cols: nat, squareSize: real) returns (points: array<Point3>)
    ensures points.Length == rows * cols
    ensures forall k :: 0 <= k < points.Length ==> cols > 0 && points[k] == GridPoint(k, cols, squareSize)
  {
    points := new Point3[rows * cols](_ => Point3(0.0, 0.0, 0.0));
    WriteGridLayout(points, cols, rows);
    ScaleInPlace(points, squareSize);
  }

  /** `objp[:, :2] = mgrid(...).T.reshape(-1, 2)` on a zero-filled array. */
  method WriteGridLayout(points: array<Point3>, cols: nat, rows: nat)
    requires points.Length == rows * cols
    requires forall k :: 0 <= k < points.Length ==> points[k].z == 0.0
    modifies points
    ensures forall k :: 0 <= k < points.Length ==> cols > 0 && points[k] == UnitGridPoint(k, cols)
  {
    if points.Length == 0 {
      return;
    }
    var xy := Flatten(TransposedGrid(cols, rows));
    for k := 0 to points.Length
      invariant forall i :: 0 <= i < k ==> cols > 0 && points[i] == UnitGridPoint(i, cols)
      invariant forall i :: k <= i < points.Length ==> points[i].z == 0.0
    {
      TemplateLayout(cols, rows, k);
      points[k] := Point3(xy[k].0 as real, xy[k].1 as real, points[k].z);
    }
  }

  /** `objp *= square_size`: every entry multiplied in place. */
  method ScaleInPlace(points: array<Point3>, s: real)
    modifies points
    ensures forall k :: 0 <= k < points.Length ==> points[k] == Scaled(old(points[k]), s)
  {
    for k := 0 to points.Length
      invariant forall i :: 0 <= i < k ==> points[i] == Scaled(old(points[i]), s)
      invariant forall i :: k <= i < points.Length ==> points[i] == old(points[i])
    {
      points[k] := Scaled(points[k], s);
    }
  }

  /** The template as a value: what every detected view carries as its object points. */
  function Template(rows: nat, cols: nat, squareSize: real): (t: seq<Point3>)
    ensures |t| == rows * cols
  {
    seq(rows * cols, k requires 0 <= k < rows * cols => (assert cols > 0; GridPoint(k, cols, squareSize)))
  }

  /** Every template point lies on the chessboard plane z = 0. */
  lemma TemplateOnPlane(rows: nat, cols: nat, squareSize: real, k: nat)
    requires k < rows * cols
    ensures Template(rows, cols, squareSize)[k].z == 0.0
  {
  }

  /**
   * The template covers the grid: the corner in row r, column c is point
   * r*cols + c, at (c*size, r*size, 0).
   */
  lemma {:induction false} TemplateCoversGrid(rows: nat, cols: nat, squareSize: real, r: nat, c: nat)
    requires r < rows && c < cols
    ensures r * cols + c < rows * cols
    ensures Template(rows, cols, squareSize)[r * cols + c] == Point3(c as real * squareSize, r as real * squareSize, 0.0)
  {
    var k := r * cols + c;
    assert k < rows * cols by {
      MulMonotone(r + 1, rows, cols);
      assert (r + 1) * cols == k - c + cols;
    }
    DivModUnique(k, cols, r, c);
    assert Template(rows, cols, squareSize)[k] == GridPoint(k, cols, squareSize);
  }

  /** With a non-zero square size no two template points coincide. */
  lemma {:induction false} TemplatePointsDistinct(rows: nat, cols: nat, squareSize: real, k1: nat, k2: nat)
    requires squareSize != 0.0
    requires k1 < rows * cols && k2 < rows * cols && k1 != k2
    ensures Template(rows, cols, squareSize)[k1] != Template(rows, cols, squareSize)[k2]
  {
    var t := Template(rows, cols, squareSize);
    assert cols > 0;
    assert t[k1] == Scaled(UnitGridPoint(k1, cols), squareSize);
    assert t[k2] == Scaled(UnitGridPoint(k2, cols), squareSize);
    if k1 % cols != k2 % cols {
      RealScaleInjective(k1 % cols, k2 % cols, squareSize);
    } else {
      QuotientsDiffer(k1, k2, cols);
      RealScaleInjective(k1 / cols, k2 / cols, squareSize);
    }
  }

  /** Two different numbers with the same remainder have different quotients. */
  lemma QuotientsDiffer(k1: nat, k2: nat, c: nat)
    requires c > 0 && k1 != k2 && k1 % c == k2 % c
    ensures k1 / c != k2 / c
  {
    DivModSplit(k1, c);
    DivModSplit(k2, c);
  }

  lemma RealScaleInjective(a: int, b: int, s: real)
    requires s != 0.0 && a != b
    ensures a as real * s != b as real * s
  {
    assert (a as real - b as real) * s != 0.0;
  }

  // ---------------------------------------------------------------------------
  // Which paths are processed, and in what order
  // ---------------------------------------------------------------------------

  const ImageExtensions: seq<string> := [".jpg", ".jpeg", ".png", ".bmp", ".tiff", ".tif"]

  /** `img.lower().endswith(valid_image_formats)`. */
  predicate IsImagePath(p: string) {
    exists i :: 0 <= i < |ImageExtensions| && EndsWith(Lower(p), ImageExtensions[i])
  }

  /** The extension test ignores case: a path and its lower-cased form are judged alike. */
  lemma ImagePathIgnoresCase(p: string)
    ensures IsImagePath(Lower(p)) <==> IsImagePath(p)
  {
    LowerIdempotent(p);
  }

  /** A path ending in one of the listed extensions, in any case, is an image path. */
  lemma ImagePathBySuffix(p: string, i: nat)
    requires i < |ImageExtensions| && EndsWith(Lower(p), ImageExtensions[i])
    ensures IsImagePath(p)
  {
  }

  /** Line 31: the paths with an image extension, in their glob order. */
  function ImagePaths(paths: seq<string>): (r: seq<string>)
    ensures forall p :: multiset(r)[p] == if IsImagePath(p) then multiset(paths)[p] else 0
  {
    if paths == [] then []
    else
      var init, last := paths[..|paths| - 1], paths[|paths| - 1];
      assert paths == init + [last];
      ImagePaths(init) + (if IsImagePath(last) then [last] else [])
  }

  /** Lines 31-32: the filtered paths after `image_paths.sort()`. */
  function ProcessingOrder(paths: seq<string>): (r: seq<string>)
    ensures Sorted(r)
    ensures forall p :: multiset(r)[p] == if IsImagePath(p) then multiset(paths)[p] else 0
  {
    SortStrings(ImagePaths(paths))
  }

  /**
   * The detector visits exactly the image-extension paths, each as often as
   * glob listed it, in sorted order.
   */
  lemma ProcessingOrderSpec(paths: seq<string>)
    ensures Sorted(ProcessingOrder(paths))
    ensures forall p :: multiset(ProcessingOrder(paths))[p] == if IsImagePath(p) then multiset(paths)[p] else 0
    ensures forall p :: p in ProcessingOrder(paths) <==> p in paths && IsImagePath(p)
  {
    forall p ensures p in ProcessingOrder(paths) <==> p in paths && IsImagePath(p) {
      assert p in ProcessingOrder(paths) <==> multiset(ProcessingOrder(paths))[p] > 0;
      assert p in paths <==> multiset(paths)[p] > 0;
    }
  }

  /** The processed paths imread can open: only these leave an entry in the output. */
  function ReadablePaths<P>(paths: seq<string>, detect: string -> Detection<P>): (r: seq<string>)
    ensures |r| <= |paths|
    ensures forall p :: multiset(r)[p] == if detect(p).Unreadable? then 0 else multiset(paths)[p]
  {
    if paths == [] then []
    else
      var init, last := paths[..|paths| - 1], paths[|paths| - 1];
      assert paths == init + [last];
      ReadablePaths(init, detect) + (if detect(last).Unreadable? then [] else [last])
  }

  /**
   * A directory whose files all lack an image extension yields no detection
   * entries at all (three empty lists, not None).
   */
  lemma NoImagesNothingRead<P>(paths: seq<string>, detect: string -> Detection<P>)
    requires forall i :: 0 <= i < |paths| ==> !IsImagePath(paths[i])
    ensures ProcessingOrder(paths) == [] && ReadablePaths(ProcessingOrder(paths), detect) == []
  {
    ProcessingOrderSpec(paths);
  }

  /** What is kept is a readable path of the input. */
  lemma {:induction false} ReadablePathsFrom<P>(paths: seq<string>, detect: string -> Detection<P>)
    ensures forall p :: p in ReadablePaths(paths, detect) ==> p in paths && !detect(p).Unreadable?
  {
    if paths != [] {
      var init := paths[..|paths| - 1];
      ReadablePathsFrom(init, detect);
      assert forall p :: p in init ==> p in paths;
    }
  }

  /** Every path is kept exactly when none of them is unreadable. */
  lemma ReadablePathsAll<P>(paths: seq<string>, detect: string -> Detection<P>)
    ensures |ReadablePaths(paths, detect)| == |paths| <==> forall i :: 0 <= i < |paths| ==> !detect(paths[i]).Unreadable?
    ensures (forall i :: 0 <= i < |paths| ==> !detect(paths[i]).Unreadable?) ==> ReadablePaths(paths, detect) == paths
  {
    if forall i :: 0 <= i < |paths| ==> !detect(paths[i]).Unreadable? {
      ReadablePathsKeepAll(paths, detect);
    } else {
      var i :| 0 <= i < |paths| && detect(paths[i]).Unreadable?;
      ReadablePathsDropOne(paths, detect, i);
    }
  }

  lemma {:induction false} ReadablePathsKeepAll<P>(paths: seq<string>, detect: string -> Detection<P>)
    requires forall i :: 0 <= i < |paths| ==> !detect(paths[i]).Unreadable?
    ensures ReadablePaths(paths, detect) == paths
  {
    if paths != [] {
      var init, last := paths[..|paths| - 1], paths[|paths| - 1];
      assert paths == init + [last];
      assert forall i :: 0 <= i < |init| ==> init[i] == paths[i];
      ReadablePathsKeepAll(init, detect);
      assert ReadablePaths(paths, detect) == ReadablePaths(init, detect) + [last];
    }
  }

  lemma {:induction false} ReadablePathsDropOne<P>(paths: seq<string>, detect: string -> Detection<P>, i: nat)
    requires i < |paths| && detect(paths[i]).Unreadable?
    ensures |ReadablePaths(paths, detect)| < |paths|
  {
    var init, last := paths[..|paths| - 1], paths[|paths| - 1];
    var r0 := ReadablePaths(init, detect);
    var kept := if detect(last).Unreadable? then 0 else 1;
    assert |ReadablePaths(paths, detect)| == |r0| + kept;
    if i < |init| {
      assert init[i] == paths[i];
      ReadablePathsDropOne(init, detect, i);
      assert |r0| + kept <= |init|;
    } else {
      assert last == paths[i];
      assert |r0| <= |init|;
    }
  }


  /** Dropping the unreadable paths keeps the rest in sorted order. */
  lemma {:induction false} ReadablePathsSorted<P>(paths: seq<string>, detect: string -> Detection<P>)
    requires Sorted(paths)
    ensures Sorted(ReadablePaths(paths, detect))
  {
    if paths != [] {
      var init, last := paths[..|paths| - 1], paths[|paths| - 1];
      assert Sorted(init) by {
        forall i, j | 0 <= i < j < |init| ensures AtMost(init[i], init[j]) {
          assert init[i] == paths[i] && init[j] == paths[j];
        }
      }
      ReadablePathsSorted(init, detect);
      ReadablePathsFrom(init, detect);
      var r0 := ReadablePaths(init, detect);
      if !detect(last).Unreadable? {
        var r := r0 + [last];
        forall i, j | 0 <= i < j < |r| ensures AtMost(r[i], r[j]) {
          if j < |r0| {
            assert r[i] == r0[i] && r[j] == r0[j];
          } else {
            assert r[i] == r0[i] && r0[i] in init;
            var m :| 0 <= m < |init| && init[m] == r0[i];
            assert paths[m] == r0[i];
          }
        }
      }
    }
  }

  // ---------------------------------------------------------------------------
  // The per-image accumulation loop
  // ---------------------------------------------------------------------------

  /** One output position (its three entries) records the outcome for path `path`. */
  ghost predicate Records<P>(corners: Option<P>, objectPoints: Option<seq<Point3>>, fileName: Option<string>,
                             outcome: Detection<P>, template: seq<Point3>, path: string)
  {
    match outcome
    case Detected(c) =>
      corners == Some(c) && objectPoints == Some(template) && fileName == Some(Paths.Basename(path))
    case NotFound =>
      corners == None && objectPoints == None && fileName == None
    case Unreadable => false
  }

  /**
   * What the accumulation loop has appended after visiting `paths` in order:
   * nothing for an unreadable image, the corners, the shared template and the
   * basename for a detected board, and an absent marker in all three lists
   * otherwise.
   */
  function Accumulate<P>(paths: seq<string>, detect: string -> Detection<P>, template: seq<Point3>): (d: Detections<P>)
    ensures d.SameLength()
  {
    if paths == [] then Detections([], [], [])
    else
      var d := Accumulate(paths[..|paths| - 1], detect, template);
      var path := paths[|paths| - 1];
      match detect(path)
      case Unreadable => d
      case Detected(c) =>
        Detections(d.imagePoints + [Some(c)], d.objectPoints + [Some(template)],
                   d.fileNames + [Some(Paths.Basename(path))])
      case NotFound =>
        Detections(d.imagePoints + [None], d.objectPoints + [None], d.fileNames + [None])
  }

  /**
   * Position k of the accumulated lists records the outcome of the k-th
   * readable path, so the lists are as long as the readable paths.
   */
  lemma {:induction false} AccumulateRecords<P>(paths: seq<string>, detect: string -> Detection<P>, template: seq<Point3>)
    ensures var d, read := Accumulate(paths, detect, template), ReadablePaths(paths, detect);
      |d.imagePoints| == |read| &&
      forall k :: 0 <= k < |read| ==>
        Records(d.imagePoints[k], d.objectPoints[k], d.fileNames[k], detect(read[k]), template, read[k])
  {
    if paths != [] {
      var init, path := paths[..|paths| - 1], paths[|paths| - 1];
      AccumulateRecords(init, detect, template);
      var d0, read0 := Accumulate(init, detect, template), ReadablePaths(init, detect);
      var d, read := Accumulate(paths, detect, template), ReadablePaths(paths, detect);
      if !detect(path).Unreadable? {
        assert read == read0 + [path];
        forall k | 0 <= k < |read|
          ensures Records(d.imagePoints[k], d.objectPoints[k], d.fileNames[k], detect(read[k]), template, read[k])
        {
          if k < |read0| {
            assert read[k] == read0[k];
            assert d.imagePoints[k] == d0.imagePoints[k] && d.objectPoints[k] == d0.objectPoints[k]
                && d.fileNames[k] == d0.fileNames[k];
          }
        }
      }
    }
  }

  /** Lists whose every position records an outcome are aligned. */
  lemma RecordsAligned<P>(d: Detections<P>, read: seq<string>, detect: string -> Detection<P>, template: seq<Point3>)
    requires d.SameLength() && |d.imagePoints| == |read|
    requires forall k :: 0 <= k < |read| ==>
      Records(d.imagePoints[k], d.objectPoints[k], d.fileNames[k], detect(read[k]), template, read[k])
    ensures d.Aligned()
  {
    forall k | 0 <= k < |read|
      ensures (d.imagePoints[k].None? <==> d.objectPoints[k].None?) && (d.imagePoints[k].None? <==> d.fileNames[k].None?)
    {
      assert Records(d.imagePoints[k], d.objectPoints[k], d.fileNames[k], detect(read[k]), template, read[k]);
    }
  }

  /**
   * `detect_chessboard_corners`. An empty glob result returns None (the
   * bare `return`); otherwise the three lists hold one entry per readable
   * image-extension path, in sorted order: the corners, the shared template and
   * the basename on success, an absent marker in all three on failure. An
   * unreadable image leaves no entry.
   */
  method DetectChessboardCorners<P>(paths: seq<string>, rows: nat, cols: nat, squareSize: real,
                                    detect: string -> Detection<P>)
    returns (r: Option<Detections<P>>)
    ensures r.None? <==> paths == []
    ensures r.Some? ==> r.value.Aligned()
    ensures r.Some? ==>
      var read := ReadablePaths(ProcessingOrder(paths), detect);
      |r.value.imagePoints| == |read| &&
      forall k :: 0 <= k < |read| ==>
        Records(r.value.imagePoints[k], r.value.objectPoints[k], r.value.fileNames[k],
                detect(read[k]), Template(rows, cols, squareSize), read[k])
  {
    var templateArray := ObjectPointTemplate(rows, cols, squareSize);
    var template := templateArray[..];
    assert template == Template(rows, cols, squareSize);

    if paths == [] {
      return None;
    }
    var order := ProcessingOrder(paths);

    var d := AccumulateDetections(order, detect, template);
    AccumulateRecords(order, detect, template);
    RecordsAligned(d, ReadablePaths(order, detect), detect, template);
    r := Some(d);
  }

  /** Lines 40-70: the loop over the sorted paths, appending to the three lists. */
  method AccumulateDetections<P>(order: seq<string>, detect: string -> Detection<P>, template: seq<Point3>)
    returns (d: Detections<P>)
    ensures d == Accumulate(order, detect, template)
  {
    var imagePoints: seq<Option<P>> := [];
    var objectPoints: seq<Option<seq<Point3>>> := [];
    var fileNames: seq<Option<string>> := [];
    for i := 0 to |order|
      invariant Detections(imagePoints, objectPoints, fileNames) == Accumulate(order[..i], detect, template)
    {
      assert order[..i + 1][..i] == order[..i];
      var path := order[i];
      var outcome := detect(path);
      if outcome.Detected? {
        imagePoints := imagePoints + [Some(outcome.corners)];
        objectPoints := objectPoints + [Some(template)];
        fileNames := fileNames + [Some(Paths.Basename(path))];
      } else if outcome.NotFound? {
        imagePoints := imagePoints + [None];
        objectPoints := objectPoints + [None];
        fileNames := fileNames + [None];
      }
    }
    assert order[..|order|] == order;
    d := Detections(imagePoints, objectPoints, fileNames);
  }
}
