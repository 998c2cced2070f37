/**
 * Mono calibration helpers (src/calibrate_camera.py): the image-size
 * consistency check, the removal of the absent placeholders before
 * calibration, and the ORB-SLAM3 settings writer with its call site.
 *
 * Directory listing and image reading are oracles: the file names are a
 * parameter and `shapeOf` gives `imread(path).shape` as (rows, columns), or
 * None when imread returns None. Written numbers stay symbolic: a field
 * records which value is written with how many decimals.
 */
module CalibrateCamera {
  import opened Wrappers
  import Paths
  import Chessboard

  // ---------------------------------------------------------------------------
  // Image-size consistency check (lines 108-127)
  // ---------------------------------------------------------------------------

  const ValidExtensions: seq<string> := [".jpg", ".JPG", ".png", ".PNG"]

  /** The loop looks at a file only when `splitext` gives one of the four extensions (case-sensitive). */
  predicate Considered(name: string) {
    Paths.Extension(name) in ValidExtensions
  }

  /** `(image.shape[1], image.shape[0])` for the file in `directory`, or None when imread fails. */
  function SizeOf(directory: string, name: string, shapeOf: string -> Option<(nat, nat)>): Option<(nat, nat)> {
    match shapeOf(Paths.Join(directory, name))
    case None => None
    case Some(shape) => Some((shape.1, shape.0))
  }

  /** Index of the first considered name, or |names| when there is none. */
  function FirstConsidered(names: seq<string>): (f: nat)
    ensures f <= |names|
    ensures forall j :: 0 <= j < f ==> !Considered(names[j])
    ensures f < |names| ==> Considered(names[f])
  {
    if names == [] then 0
    else if Considered(names[0]) then 0
    else 1 + FirstConsidered(names[1..])
  }

  /** Every considered image is readable and all of them have one size. */
  predicate AllSameSize(directory: string, names: seq<string>, shapeOf: string -> Option<(nat, nat)>) {
    (forall k :: 0 <= k < |names| && Considered(names[k]) ==> SizeOf(directory, names[k], shapeOf).Some?) &&
    (forall j, k :: 0 <= j < |names| && 0 <= k < |names| && Considered(names[j]) && Considered(names[k]) ==>
       SizeOf(directory, names[j], shapeOf) == SizeOf(directory, names[k], shapeOf))
  }

  datatype SizeError =
    | ImageUnreadable(name: string)                                        // `.shape` of None
    | SizeMismatch(name: string, found: (nat, nat), expected: (nat, nat))  // the ValueError of line 124

  /**
   * The error raised at name k: k is considered, every considered name
   * before it passed, and k is unreadable or differs from the first size.
   */
  predicate FailsAt(directory: string, names: seq<string>, shapeOf: string -> Option<(nat, nat)>, k: nat, e: SizeError)
    requires k < |names|
  {
    var f := FirstConsidered(names);
    Considered(names[k]) && f <= k &&
    (forall j :: 0 <= j < k && Considered(names[j]) ==>
       SizeOf(directory, names[j], shapeOf).Some? &&
       SizeOf(directory, names[j], shapeOf) == SizeOf(directory, names[f], shapeOf)) &&
    match e
    case ImageUnreadable(name) =>
      name == names[k] && SizeOf(directory, names[k], shapeOf).None?
    case SizeMismatch(name, found, expected) =>
      name == names[k] && f < k && SizeOf(directory, names[f], shapeOf) == Some(expected) &&
      SizeOf(directory, names[k], shapeOf) == Some(found) && found != expected
  }

  /**
   * Lines 110-125. Succeeds exactly when all considered images are readable
   * and of one size, which it then returns ((0, 0) when there is none);
   * otherwise it fails at the first considered image that breaks this.
   */
  method CheckImageSizes(directory: string, fileNames: seq<string>, shapeOf: string -> Option<(nat, nat)>)
    returns (r: Result<(nat, nat), SizeError>)
    ensures r.Success? <==> AllSameSize(directory, fileNames, shapeOf)
    ensures r.Success? && FirstConsidered(fileNames) == |fileNames| ==> r.value == (0, 0)
    ensures r.Success? && FirstConsidered(fileNames) < |fileNames| ==>
      SizeOf(directory, fileNames[FirstConsidered(fileNames)], shapeOf) == Some(r.value)
    ensures r.Failure? ==> exists k :: 0 <= k < |fileNames| && FailsAt(directory, fileNames, shapeOf, k, r.error)
  {
    ghost var f := FirstConsidered(fileNames);
    var imageSize: (nat, nat) := (0, 0);
    var imageCounter := 0;
    for i := 0 to |fileNames|
      invariant imageCounter == 0 <==> i <= f
      invariant imageCounter == 0 ==> imageSize == (0, 0)
      invariant imageCounter > 0 ==> SizeOf(directory, fileNames[f], shapeOf) == Some(imageSize)
      invariant UniformUpTo(directory, fileNames, shapeOf, imageSize, i)
    {
      var fileName := fileNames[i];
      if !Considered(fileName) {
        continue;
      }
      var pathFileImage := Paths.Join(directory, fileName);
      var shape := shapeOf(pathFileImage);
      assert SizeOf(directory, fileName, shapeOf) == if shape.None? then None else Some((shape.value.1, shape.value.0));
      if shape.None? || (imageCounter != 0 && imageSize != (shape.value.1, shape.value.0)) {
        UniformUpToAll(directory, fileNames, shapeOf, imageSize, i);
        if shape.None? {
          r := Failure(ImageUnreadable(fileName));
        } else {
          r := Failure(SizeMismatch(fileName, (shape.value.1, shape.value.0), imageSize));
        }
        assert FailsAt(directory, fileNames, shapeOf, i, r.error);
        FailureBreaksUniformity(directory, fileNames, shapeOf, i, r.error);
        return;
      }
      if imageCounter == 0 {
        imageSize := (shape.value.1, shape.value.0);
        UniformUpToAll(directory, fileNames, shapeOf, imageSize, i);
      }
      imageCounter := imageCounter + 1;
    }
    UniformUpToAll(directory, fileNames, shapeOf, imageSize, |fileNames|);
    UniformSize(directory, fileNames, shapeOf, imageSize);
    return Success(imageSize);
  }

  /** Every considered name among the first i has the given size. */
  predicate UniformUpTo(directory: string, names: seq<string>, shapeOf: string -> Option<(nat, nat)>,
                        size: (nat, nat), i: nat)
    requires i <= |names|
  {
    i == 0 ||
    (UniformUpTo(directory, names, shapeOf, size, i - 1) &&
     (Considered(names[i - 1]) ==> SizeOf(directory, names[i - 1], shapeOf) == Some(size)))
  }

  lemma {:induction false} UniformUpToAll(directory: string, names: seq<string>, shapeOf: string -> Option<(nat, nat)>,
                                          size: (nat, nat), i: nat)
    requires i <= |names|
    ensures UniformUpTo(directory, names, shapeOf, size, i) <==>
      forall j :: 0 <= j < i && Considered(names[j]) ==> SizeOf(directory, names[j], shapeOf) == Some(size)
  {
    if i > 0 {
      UniformUpToAll(directory, names, shapeOf, size, i - 1);
    }
  }

  lemma UniformSize(directory: string, names: seq<string>, shapeOf: string -> Option<(nat, nat)>, size: (nat, nat))
    requires forall j :: 0 <= j < |names| && Considered(names[j]) ==> SizeOf(directory, names[j], shapeOf) == Some(size)
    ensures AllSameSize(directory, names, shapeOf)
  {
  }

  /** A considered image that is unreadable or of another size rules out a common size. */
  lemma FailureBreaksUniformity(directory: string, names: seq<string>, shapeOf: string -> Option<(nat, nat)>,
                                k: nat, e: SizeError)
    requires k < |names| && FailsAt(directory, names, shapeOf, k, e)
    ensures !AllSameSize(directory, names, shapeOf)
  {
    var f := FirstConsidered(names);
    if e.SizeMismatch? {
      assert Considered(names[f]) && Considered(names[k]);
    }
  }

  // ---------------------------------------------------------------------------
  // Dropping the absent placeholders (lines 134-136)
  // ---------------------------------------------------------------------------

  /** The positions of present entries, in increasing order. */
  function PresentPositions<T>(s: seq<Option<T>>): (ps: seq<nat>)
    ensures forall k :: 0 <= k < |ps| ==> ps[k] < |s| && s[ps[k]].Some?
  {
    if s == [] then []
    else
      var init := s[..|s| - 1];
      PresentPositions(init) + (if s[|s| - 1].Some? then [|s| - 1] else [])
  }

  /** `[x for x in s if x is present]`: the present values, in their order. */
  function DropAbsent<T>(s: seq<Option<T>>): seq<T> {
    if s == [] then []
    else
      var init := s[..|s| - 1];
      DropAbsent(init) + (if s[|s| - 1].Some? then [s[|s| - 1].value] else [])
  }

  /**
   * The filter keeps exactly the present entries, in order: entry k of the
   * result is the entry at the k-th present position.
   */
  lemma {:induction false} DropAbsentSpec<T>(s: seq<Option<T>>)
    ensures var ps, r := PresentPositions(s), DropAbsent(s);
      |r| == |ps| &&
      (forall k :: 0 <= k < |r| ==> r[k] == s[ps[k]].value) &&
      (forall a, b :: 0 <= a < b < |ps| ==> ps[a] < ps[b]) &&
      (forall i: nat :: i in ps <==> i < |s| && s[i].Some?)
  {
    if s != [] {
      var init := s[..|s| - 1];
      DropAbsentSpec(init);
      assert forall i :: 0 <= i < |init| ==> init[i] == s[i];
    }
  }

  /** Two lists with absent entries at the same positions have the same present positions. */
  lemma {:induction false} SamePlaceholders<A, B>(a: seq<Option<A>>, b: seq<Option<B>>)
    requires |a| == |b| && forall i :: 0 <= i < |a| ==> (a[i].None? <==> b[i].None?)
    ensures PresentPositions(a) == PresentPositions(b)
  {
    if a != [] {
      SamePlaceholders(a[..|a| - 1], b[..|b| - 1]);
    }
  }

  /** The three lists handed to calibrateCameraExtended and to the report. */
  datatype CalibrationViews<P> = CalibrationViews(
    imagePoints: seq<P>, objectPoints: seq<seq<Chessboard.Point3>>, fileNames: seq<string>)

  function DropAbsentViews<P>(d: Chessboard.Detections<P>): CalibrationViews<P> {
    CalibrationViews(DropAbsent(d.imagePoints), DropAbsent(d.objectPoints), DropAbsent(d.fileNames))
  }

  /**
   * Because the detector places its placeholders at the same positions in
   * all three lists, filtering each list on its own keeps them aligned: the
   * k-th corners, object points and file name come from the same image.
   */
  lemma DropAbsentAligned<P>(d: Chessboard.Detections<P>)
    requires d.Aligned()
    ensures var v, ps := DropAbsentViews(d), PresentPositions(d.imagePoints);
      |v.imagePoints| == |v.objectPoints| == |v.fileNames| == |ps| &&
      forall k :: 0 <= k < |ps| ==>
        d.imagePoints[ps[k]] == Some(v.imagePoints[k]) &&
        d.objectPoints[ps[k]] == Some(v.objectPoints[k]) &&
        d.fileNames[ps[k]] == Some(v.fileNames[k])
  {
    SamePlaceholders(d.imagePoints, d.objectPoints);
    SamePlaceholders(d.imagePoints, d.fileNames);
    DropAbsentSpec(d.imagePoints);
    DropAbsentSpec(d.objectPoints);
    DropAbsentSpec(d.fileNames);
  }

  // ---------------------------------------------------------------------------
  // write_orbslam3_mono_yaml_config (lines 28-85)
  // ---------------------------------------------------------------------------

  /** The keys whose values the writer computes, including the two misspelled fallbacks. */
  datatype Key = Fx | Fy | Cx | Cy | K1 | K2 | P1 | P2 | K3 | Width | Height | NewWidth | NewHeight
               | P1Fallback | P2Fallback

  /** The text a key is written under. */
  function Name(k: Key): string {
    match k
    case Fx => "Camera1.fx"
    case Fy => "Camera1.fy"
    case Cx => "Camera1.cx"
    case Cy => "Camera1.cy"
    case K1 => "Camera1.k1"
    case K2 => "Camera1.k2"
    case P1 => "Camera1.p1"
    case P2 => "Camera1.p2"
    case K3 => "Camera1.k3"
    case Width => "Camera.width"
    case Height => "Camera.height"
    case NewWidth => "Camera.newWidth"
    case NewHeight => "Camera.newHeight"
    case P1Fallback => "Camera.1p1"
    case P2Fallback => "Camera.1p2"
  }

  /** A written value: a float with a fixed number of decimals, an integer, or literal text. */
  datatype Field = Fixed(value: real, decimals: nat) | Integer(n: int) | Literal(text: string)

  /** One `f.write` call: constant text, or `<key>: <value>` and a line break. */
  datatype ConfigLine = Raw(text: string) | Entry(key: Key, field: Field)

  /** The value the file gives a key: the first entry under it, None when there is none. */
  function ValueOf(lines: seq<ConfigLine>, key: Key): Option<Field> {
    if lines == [] then None
    else
      Then(ValueOf(lines[..|lines| - 1], key), lines[|lines| - 1], key)
  }

  /** A key's value after one more write, given its value before it. */
  function Then(before: Option<Field>, line: ConfigLine, key: Key): Option<Field> {
    if before.Some? then before
    else if line.Entry? && line.key == key then Some(line.field) else None
  }

  /** Lines 34-38: header, comments, and the constant version and type lines. */
  const Preamble: seq<ConfigLine> := [
    Raw("%YAML:1.0\n\n"),
    Raw("# Camera Configuration File\n\n"),
    Raw("File.version: \"1.0\" \n"),
    Raw("\n# Camera Parameters\n\n"),
    Raw("Camera.type: \"PinHole\"\n")]

  /** Lines 62-85: the constant camera, ORB extractor and viewer settings. */
  const Defaults: seq<ConfigLine> := [
    Raw("Camera.fps: 10\n"),
    Raw("Camera.RGB: 1\n"),
    Raw("\n# ORB Parameters\n\n"),
    Raw("ORBextractor.nFeatures: 1500\n"),
    Raw("ORBextractor.scaleFactor: 1.2\n"),
    Raw("ORBextractor.nLevels: 8\n"),
    Raw("ORBextractor.iniThFAST: 20\n"),
    Raw("ORBextractor.minThFAST: 7\n"),
    Raw("\n# Viewer Parameters\n\n"),
    Raw("Viewer.KeyFrameSize: 0.05\n"),
    Raw("Viewer.KeyFrameLineWidth: 1.0\n"),
    Raw("Viewer.GraphLineWidth: 0.9\n"),
    Raw("Viewer.PointSize: 2.0\n"),
    Raw("Viewer.CameraSize: 0.08\n"),
    Raw("Viewer.CameraLineWidth: 3.0\n"),
    Raw("Viewer.ViewpointX: 0.0\n"),
    Raw("Viewer.ViewpointY: -0.7\n"),
    Raw("Viewer.ViewpointZ: -1.8\n"),
    Raw("Viewer.ViewpointF: 500.0\n")]

  datatype ConfigError =
    | CameraMatrixShape(rows: nat, cols: nat)
    | DistortionShape(rows: nat, cols: nat)

  /** The shape check of lines 31-32: one row of 4, 5 or 8 coefficients. */
  predicate DistortionShapeValid(rows: nat, cols: nat) {
    rows == 1 && cols in {4, 5, 8}
  }

  /** Lines 39-42: the focal lengths and the principal point, with 6 decimals. */
  function Intrinsics(fx: real, fy: real, cx: real, cy: real): seq<ConfigLine> {
    [Entry(Fx, Fixed(fx, 6)), Entry(Fy, Fixed(fy, 6)), Entry(Cx, Fixed(cx, 6)), Entry(Cy, Fixed(cy, 6))]
  }

  /**
   * Lines 43-56: the coefficients with 12 decimals; p1, p2 and k3 fall back
   * to the literal 0.0 when the row is too short for them, the first two
   * under misspelled keys.
   */
  function Distortion(coeffs: seq<real>): seq<ConfigLine>
    requires |coeffs| in {4, 5, 8}
  {
    [Entry(K1, Fixed(coeffs[0], 12)), Entry(K2, Fixed(coeffs[1], 12)),
     if |coeffs| >= 3 then Entry(P1, Fixed(coeffs[2], 12)) else Entry(P1Fallback, Literal("0.0")),
     if |coeffs| >= 4 then Entry(P2, Fixed(coeffs[3], 12)) else Entry(P2Fallback, Literal("0.0")),
     if |coeffs| >= 5 then Entry(K3, Fixed(coeffs[4], 12)) else Entry(K3, Literal("0.0"))]
  }

  /** Lines 58-61: the image size, written twice. */
  function SizeEntries(imageSize: (int, int)): seq<ConfigLine> {
    [Entry(Width, Integer(imageSize.0)), Entry(Height, Integer(imageSize.1)),
     Entry(NewWidth, Integer(imageSize.0)), Entry(NewHeight, Integer(imageSize.1))]
  }

  /** Lines 39-61: the entries computed from the arguments, in the order written. */
  function Entries(fx: real, fy: real, cx: real, cy: real, coeffs: seq<real>, imageSize: (int, int)): seq<ConfigLine>
    requires |coeffs| in {4, 5, 8}
  {
    Intrinsics(fx, fy, cx, cy) + Distortion(coeffs) + SizeEntries(imageSize)
  }

  /** `D[0]`: the single row of distortion coefficients. */
  function CoefficientRow(D: array2<real>): (c: seq<real>)
    reads D
    requires D.Length0 >= 1
    ensures |c| == D.Length1 && forall j :: 0 <= j < |c| ==> c[j] == D[0, j]
  {
    seq(D.Length1, j requires 0 <= j < D.Length1 reads D => D[0, j])
  }

  /** The 37 writes of a valid call, in order. */
  function ConfigFile(K: array2<real>, imageSize: (int, int), D: array2<real>): seq<ConfigLine>
    reads K, D
    requires K.Length0 == 3 && K.Length1 == 3 && DistortionShapeValid(D.Length0, D.Length1)
  {
    Preamble + Intrinsics(K[0, 0], K[1, 1], K[0, 2], K[1, 2]) + Distortion(CoefficientRow(D))
      + SizeEntries(imageSize) + Defaults
  }

  /**
   * Lines 28-85. A camera matrix that is not 3x3, or distortion coefficients
   * that are not one row of 4, 5 or 8, raise before the file is written;
   * otherwise the writes are those of `ConfigFile`.
   */
  method WriteOrbSlam3MonoYamlConfig(K: array2<real>, imageSize: (int, int), D: array2<real>)
    returns (r: Result<seq<ConfigLine>, ConfigError>)
    ensures r.Failure? <==> !(K.Length0 == 3 && K.Length1 == 3 && DistortionShapeValid(D.Length0, D.Length1))
    ensures r.Failure? ==>
      r.error == if K.Length0 == 3 && K.Length1 == 3 then DistortionShape(D.Length0, D.Length1)
                 else CameraMatrixShape(K.Length0, K.Length1)
    ensures r.Success? ==>
      K.Length0 == 3 && K.Length1 == 3 && DistortionShapeValid(D.Length0, D.Length1) &&
      r.value == ConfigFile(K, imageSize, D)
  {
    if K.Length0 != 3 || K.Length1 != 3 {
      return Failure(CameraMatrixShape(K.Length0, K.Length1));
    }
    if D.Length0 != 1 || D.Length1 !in [4, 5, 8] {
      return Failure(DistortionShape(D.Length0, D.Length1));
    }
    var lines := Preamble;
    lines := lines + [Entry(Fx, Fixed(K[0, 0], 6))];
    lines := lines + [Entry(Fy, Fixed(K[1, 1], 6))];
    lines := lines + [Entry(Cx, Fixed(K[0, 2], 6))];
    lines := lines + [Entry(Cy, Fixed(K[1, 2], 6))];
    assert lines == Preamble + Intrinsics(K[0, 0], K[1, 1], K[0, 2], K[1, 2]);
    lines := lines + [Entry(K1, Fixed(D[0, 0], 12))];
    lines := lines + [Entry(K2, Fixed(D[0, 1], 12))];
    if D.Length1 >= 3 {
      lines := lines + [Entry(P1, Fixed(D[0, 2], 12))];
    } else {
      lines := lines + [Entry(P1Fallback, Literal("0.0"))];
    }
    if D.Length1 >= 4 {
      lines := lines + [Entry(P2, Fixed(D[0, 3], 12))];
    } else {
      lines := lines + [Entry(P2Fallback, Literal("0.0"))];
    }
    if D.Length1 >= 5 {
      lines := lines + [Entry(K3, Fixed(D[0, 4], 12))];
    } else {
      lines := lines + [Entry(K3, Literal("0.0"))];
    }
    assert lines == Preamble + Intrinsics(K[0, 0], K[1, 1], K[0, 2], K[1, 2]) + Distortion(CoefficientRow(D));
    lines := lines + [Entry(Width, Integer(imageSize.0))];
    lines := lines + [Entry(Height, Integer(imageSize.1))];
    lines := lines + [Entry(NewWidth, Integer(imageSize.0))];
    lines := lines + [Entry(NewHeight, Integer(imageSize.1))];
    assert lines == Preamble + Intrinsics(K[0, 0], K[1, 1], K[0, 2], K[1, 2]) + Distortion(CoefficientRow(D))
      + SizeEntries(imageSize);
    lines := lines + Defaults;
    return Success(lines);
  }

  /** One more write: a key keeps its first value, or takes the new entry's when it had none. */
  lemma ValueOfAppend(lines: seq<ConfigLine>, line: ConfigLine, key: Key)
    ensures ValueOf(lines + [line], key) == Then(ValueOf(lines, key), line, key)
  {
    assert (lines + [line])[..|lines|] == lines;
  }

  /** Writes in two runs: a key's value is its value in the first run, or else in the second. */
  lemma {:induction false} ValueOfConcat(a: seq<ConfigLine>, b: seq<ConfigLine>, key: Key)
    ensures ValueOf(a + b, key) == if ValueOf(a, key).Some? then ValueOf(a, key) else ValueOf(b, key)
  {
    if b == [] {
      assert a + b == a;
    } else {
      var init, last := b[..|b| - 1], b[|b| - 1];
      ValueOfConcat(a, init, key);
      assert a + b == (a + init) + [last];
      ValueOfAppend(a + init, last, key);
      assert b == init + [last];
      ValueOfAppend(init, last, key);
    }
  }

  /** A key no entry is written under has no value. */
  lemma {:induction false} ValueOfAbsent(lines: seq<ConfigLine>, key: Key)
    requires forall i :: 0 <= i < |lines| && lines[i].Entry? ==> lines[i].key != key
    ensures ValueOf(lines, key) == None
  {
    if lines != [] {
      ValueOfAbsent(lines[..|lines| - 1], key);
    }
  }

  /** The first entry written under a key is the value a reader finds there. */
  lemma {:induction false} ValueOfFirst(lines: seq<ConfigLine>, i: nat)
    requires i < |lines| && lines[i].Entry?
    requires forall j :: 0 <= j < i && lines[j].Entry? ==> lines[j].key != lines[i].key
    ensures ValueOf(lines, lines[i].key) == Some(lines[i].field)
  {
    var n := |lines| - 1;
    if i == n {
      ValueOfAbsent(lines[..n], lines[i].key);
    } else {
      ValueOfFirst(lines[..n], i);
    }
  }

  /**
   * What a reader of the file finds under each key once validation passes:
   * fx, fy, cx, cy from K[0,0], K[1,1], K[0,2], K[1,2]; k1, k2, p1, p2 from
   * coefficient columns 0-3 (the misspelled fallbacks never appear, since at
   * least 4 columns passed the check); k3 from column 4 when there is one and
   * the literal 0.0 otherwise; width and newWidth the first size component,
   * height and newHeight the second.
   */
  lemma ConfigValues(K: array2<real>, imageSize: (int, int), D: array2<real>)
    requires K.Length0 == 3 && K.Length1 == 3 && DistortionShapeValid(D.Length0, D.Length1)
    ensures var lines := ConfigFile(K, imageSize, D);
      ValueOf(lines, Fx) == Some(Fixed(K[0, 0], 6)) && ValueOf(lines, Fy) == Some(Fixed(K[1, 1], 6)) &&
      ValueOf(lines, Cx) == Some(Fixed(K[0, 2], 6)) && ValueOf(lines, Cy) == Some(Fixed(K[1, 2], 6)) &&
      ValueOf(lines, K1) == Some(Fixed(D[0, 0], 12)) && ValueOf(lines, K2) == Some(Fixed(D[0, 1], 12)) &&
      ValueOf(lines, P1) == Some(Fixed(D[0, 2], 12)) && ValueOf(lines, P2) == Some(Fixed(D[0, 3], 12)) &&
      ValueOf(lines, K3) == Some(if D.Length1 >= 5 then Fixed(D[0, 4], 12) else Literal("0.0")) &&
      ValueOf(lines, P1Fallback) == None && ValueOf(lines, P2Fallback) == None &&
      ValueOf(lines, Width) == Some(Integer(imageSize.0)) && ValueOf(lines, NewWidth) == Some(Integer(imageSize.0)) &&
      ValueOf(lines, Height) == Some(Integer(imageSize.1)) && ValueOf(lines, NewHeight) == Some(Integer(imageSize.1))
  {
    var c := CoefficientRow(D);
    var e := Entries(K[0, 0], K[1, 1], K[0, 2], K[1, 2], c, imageSize);
    assert ConfigFile(K, imageSize, D) == Preamble + e + Defaults;
    forall key: Key
      ensures ValueOf(Preamble + e + Defaults, key) == ValueOf(e, key)
    {
      ValueOfConcat(Preamble + e, Defaults, key);
      ValueOfConcat(Preamble, e, key);
      ValueOfAbsent(Preamble, key);
      ValueOfAbsent(Defaults, key);
    }
    EntriesValues(K[0, 0], K[1, 1], K[0, 2], K[1, 2], c, imageSize);
  }

  /** The per-key values of `Entries`: every key but the two fallbacks is written, and only once. */
  lemma EntriesValues(fx: real, fy: real, cx: real, cy: real, coeffs: seq<real>, imageSize: (int, int))
    requires |coeffs| in {4, 5, 8}
    ensures var e := Entries(fx, fy, cx, cy, coeffs, imageSize);
      ValueOf(e, Fx) == Some(Fixed(fx, 6)) && ValueOf(e, Fy) == Some(Fixed(fy, 6)) &&
      ValueOf(e, Cx) == Some(Fixed(cx, 6)) && ValueOf(e, Cy) == Some(Fixed(cy, 6)) &&
      ValueOf(e, K1) == Some(Fixed(coeffs[0], 12)) && ValueOf(e, K2) == Some(Fixed(coeffs[1], 12)) &&
      ValueOf(e, P1) == Some(Fixed(coeffs[2], 12)) && ValueOf(e, P2) == Some(Fixed(coeffs[3], 12)) &&
      ValueOf(e, K3) == Some(if |coeffs| >= 5 then Fixed(coeffs[4], 12) else Literal("0.0")) &&
      ValueOf(e, P1Fallback) == None && ValueOf(e, P2Fallback) == None &&
      ValueOf(e, Width) == Some(Integer(imageSize.0)) && ValueOf(e, NewWidth) == Some(Integer(imageSize.0)) &&
      ValueOf(e, Height) == Some(Integer(imageSize.1)) && ValueOf(e, NewHeight) == Some(Integer(imageSize.1))
  {
    IntrinsicsInEntries(fx, fy, cx, cy, coeffs, imageSize);
    DistortionInEntries(fx, fy, cx, cy, coeffs, imageSize);
    FallbacksAbsent(fx, fy, cx, cy, coeffs, imageSize);
    SizeInEntries(fx, fy, cx, cy, coeffs, imageSize);
  }

  lemma IntrinsicsInEntries(fx: real, fy: real, cx: real, cy: real, coeffs: seq<real>, imageSize: (int, int))
    requires |coeffs| in {4, 5, 8}
    ensures var e := Entries(fx, fy, cx, cy, coeffs, imageSize);
      ValueOf(e, Fx) == Some(Fixed(fx, 6)) && ValueOf(e, Fy) == Some(Fixed(fy, 6)) &&
      ValueOf(e, Cx) == Some(Fixed(cx, 6)) && ValueOf(e, Cy) == Some(Fixed(cy, 6))
  {
    var a, b, c := Intrinsics(fx, fy, cx, cy), Distortion(coeffs), SizeEntries(imageSize);
    IntrinsicsValues(fx, fy, cx, cy);
    forall key: Key | Run(key) == 0 ensures ValueOf(a + b + c, key) == ValueOf(a, key) {
      ValueInRuns(a, b, c, key);
    }
  }

  lemma DistortionInEntries(fx: real, fy: real, cx: real, cy: real, coeffs: seq<real>, imageSize: (int, int))
    requires |coeffs| in {4, 5, 8}
    ensures var e := Entries(fx, fy, cx, cy, coeffs, imageSize);
      ValueOf(e, K1) == Some(Fixed(coeffs[0], 12)) && ValueOf(e, K2) == Some(Fixed(coeffs[1], 12)) &&
      ValueOf(e, P1) == Some(Fixed(coeffs[2], 12)) && ValueOf(e, P2) == Some(Fixed(coeffs[3], 12)) &&
      ValueOf(e, K3) == Some(if |coeffs| >= 5 then Fixed(coeffs[4], 12) else Literal("0.0"))
  {
    var a, b, c := Intrinsics(fx, fy, cx, cy), Distortion(coeffs), SizeEntries(imageSize);
    IntrinsicsValues(fx, fy, cx, cy);
    DistortionValues(coeffs);
    forall key: Key | Run(key) == 1 && key != P1Fallback && key != P2Fallback
      ensures ValueOf(a + b + c, key) == ValueOf(b, key)
    {
      ValueInRuns(a, b, c, key);
    }
  }

  /** With four or more coefficients neither misspelled fallback key is written. */
  lemma FallbacksAbsent(fx: real, fy: real, cx: real, cy: real, coeffs: seq<real>, imageSize: (int, int))
    requires |coeffs| in {4, 5, 8}
    ensures var e := Entries(fx, fy, cx, cy, coeffs, imageSize);
      ValueOf(e, P1Fallback) == None && ValueOf(e, P2Fallback) == None
  {
    var a, b, c := Intrinsics(fx, fy, cx, cy), Distortion(coeffs), SizeEntries(imageSize);
    forall key: Key | key == P1Fallback || key == P2Fallback ensures ValueOf(a + b + c, key) == None {
      ValueOfAbsent(a, key);
      ValueOfAbsent(b, key);
      ValueOfAbsent(c, key);
      ValueInRuns(a, b, c, key);
    }
  }

  lemma SizeInEntries(fx: real, fy: real, cx: real, cy: real, coeffs: seq<real>, imageSize: (int, int))
    requires |coeffs| in {4, 5, 8}
    ensures var e := Entries(fx, fy, cx, cy, coeffs, imageSize);
      ValueOf(e, Width) == Some(Integer(imageSize.0)) && ValueOf(e, NewWidth) == Some(Integer(imageSize.0)) &&
      ValueOf(e, Height) == Some(Integer(imageSize.1)) && ValueOf(e, NewHeight) == Some(Integer(imageSize.1))
  {
    var a, b, c := Intrinsics(fx, fy, cx, cy), Distortion(coeffs), SizeEntries(imageSize);
    IntrinsicsValues(fx, fy, cx, cy);
    DistortionValues(coeffs);
    SizeValues(imageSize);
    forall key: Key | Run(key) == 2 ensures ValueOf(a + b + c, key) == ValueOf(c, key) {
      ValueInRuns(a, b, c, key);
    }
  }

  /** Writes in three runs: a key's value is its value in the first run that gives it one. */
  lemma ValueInRuns(a: seq<ConfigLine>, b: seq<ConfigLine>, c: seq<ConfigLine>, key: Key)
    ensures ValueOf(a + b + c, key) ==
      if ValueOf(a, key).Some? then ValueOf(a, key) else if ValueOf(b, key).Some? then ValueOf(b, key) else ValueOf(c, key)
  {
    ValueOfConcat(a + b, c, key);
    ValueOfConcat(a, b, key);
  }

  /** Which run of entries writes a key: the intrinsics, the coefficients (fallbacks included), or the size. */
  function Run(k: Key): nat {
    match k
    case Fx | Fy | Cx | Cy => 0
    case Width | Height | NewWidth | NewHeight => 2
    case _ => 1
  }

  lemma IntrinsicsValues(fx: real, fy: real, cx: real, cy: real)
    ensures var a := Intrinsics(fx, fy, cx, cy);
      ValueOf(a, Fx) == Some(Fixed(fx, 6)) && ValueOf(a, Fy) == Some(Fixed(fy, 6)) &&
      ValueOf(a, Cx) == Some(Fixed(cx, 6)) && ValueOf(a, Cy) == Some(Fixed(cy, 6)) &&
      forall key :: Run(key) != 0 ==> ValueOf(a, key) == None
  {
    var a := Intrinsics(fx, fy, cx, cy);
    ValueOfFirst(a, 0);
    ValueOfFirst(a, 1);
    ValueOfFirst(a, 2);
    ValueOfFirst(a, 3);
    forall key | Run(key) != 0 ensures ValueOf(a, key) == None {
      ValueOfAbsent(a, key);
    }
  }

  lemma DistortionValues(coeffs: seq<real>)
    requires |coeffs| in {4, 5, 8}
    ensures var b := Distortion(coeffs);
      ValueOf(b, K1) == Some(Fixed(coeffs[0], 12)) && ValueOf(b, K2) == Some(Fixed(coeffs[1], 12)) &&
      ValueOf(b, P1) == Some(Fixed(coeffs[2], 12)) && ValueOf(b, P2) == Some(Fixed(coeffs[3], 12)) &&
      ValueOf(b, K3) == Some(if |coeffs| >= 5 then Fixed(coeffs[4], 12) else Literal("0.0")) &&
      forall key :: Run(key) != 1 ==> ValueOf(b, key) == None
  {
    var b := Distortion(coeffs);
    var k3 := if |coeffs| >= 5 then Fixed(coeffs[4], 12) else Literal("0.0");
    assert b == [Entry(K1, Fixed(coeffs[0], 12)), Entry(K2, Fixed(coeffs[1], 12)),
      Entry(P1, Fixed(coeffs[2], 12)), Entry(P2, Fixed(coeffs[3], 12)), Entry(K3, k3)];
    ValueOfFirst(b, 0);
    ValueOfFirst(b, 1);
    ValueOfFirst(b, 2);
    ValueOfFirst(b, 3);
    ValueOfFirst(b, 4);
    forall key | Run(key) != 1 ensures ValueOf(b, key) == None {
      ValueOfAbsent(b, key);
    }
  }

  lemma SizeValues(imageSize: (int, int))
    ensures var c := SizeEntries(imageSize);
      ValueOf(c, Width) == Some(Integer(imageSize.0)) && ValueOf(c, Height) == Some(Integer(imageSize.1)) &&
      ValueOf(c, NewWidth) == Some(Integer(imageSize.0)) && ValueOf(c, NewHeight) == Some(Integer(imageSize.1)) &&
      forall key :: Run(key) != 2 ==> ValueOf(c, key) == None
  {
    var c := SizeEntries(imageSize);
    ValueOfFirst(c, 0);
    ValueOfFirst(c, 1);
    ValueOfFirst(c, 2);
    ValueOfFirst(c, 3);
    forall key | Run(key) != 2 ensures ValueOf(c, key) == None {
      ValueOfAbsent(c, key);
    }
  }

  /**
   * Distinct keys are written under distinct names, so a reader finding a
   * value by its written name finds what ValueOf finds by key.
   */
  lemma NamesDistinct(a: Key, b: Key)
    requires a != b
    ensures Name(a) != Name(b)
  {
  }

  // ---------------------------------------------------------------------------
  // The call site (line 188)
  // ---------------------------------------------------------------------------

  /** `D[:, lo:hi]` for 0 <= lo: the columns lo up to hi, clipped to the array. */
  method SliceColumns(D: array2<real>, lo: nat, hi: nat) returns (S: array2<real>)
    ensures S.Length0 == D.Length0
    ensures S.Length1 == if lo < hi && lo < D.Length1 then (if hi < D.Length1 then hi else D.Length1) - lo else 0
    ensures forall i, j :: 0 <= i < S.Length0 && 0 <= j < S.Length1 ==> S[i, j] == D[i, lo + j]
  {
    var width := if lo < hi && lo < D.Length1 then (if hi < D.Length1 then hi else D.Length1) - lo else 0;
    S := new real[D.Length0, width]((i, j) reads D =>
      if 0 <= i < D.Length0 && 0 <= j < width then D[i, lo + j] else 0.0);
  }

  /**
   * Line 188 as written: the writer receives `distortion[:, 1:5]`. It
   * succeeds exactly when the solver returned one row of at least five
   * coefficients, and then every distortion key is filled from the column
   * to the right of its own (k1 gets the true k2, k2 the true p1, p1 the true
   * p2, p2 the true k3) while k3 is always written as 0.0.
   */
  method WriteCalibrationConfig(K: array2<real>, imageSize: (int, int), D: array2<real>)
    returns (r: Result<seq<ConfigLine>, ConfigError>)
    ensures K.Length0 == 3 && K.Length1 == 3 ==> (r.Success? <==> D.Length0 == 1 && D.Length1 >= 5)
    ensures !(K.Length0 == 3 && K.Length1 == 3) ==>
      r.Failure? && r.error == CameraMatrixShape(K.Length0, K.Length1)
    ensures r.Success? ==> (
      D.Length0 == 1 && D.Length1 >= 5 &&
      ValueOf(r.value, K1) == Some(Fixed(D[0, 1], 12)) && ValueOf(r.value, K2) == Some(Fixed(D[0, 2], 12)) &&
      ValueOf(r.value, P1) == Some(Fixed(D[0, 3], 12)) && ValueOf(r.value, P2) == Some(Fixed(D[0, 4], 12)) &&
      ValueOf(r.value, K3) == Some(Literal("0.0")))
  {
    var distortion := SliceColumns(D, 1, 5);
    r := WriteOrbSlam3MonoYamlConfig(K, imageSize, distortion);
    if r.Success? {
      ConfigValues(K, imageSize, distortion);
    }
  }

  /**
   * The call site as intended, `distortion[:, 0:5]`: k1, k2, p1, p2 and k3
   * are the solver's own first five coefficients (k3 the literal 0.0 for a
   * four-coefficient model).
   */
  method WriteCalibrationConfigCorrected(K: array2<real>, imageSize: (int, int), D: array2<real>)
    returns (r: Result<seq<ConfigLine>, ConfigError>)
    ensures K.Length0 == 3 && K.Length1 == 3 ==> (r.Success? <==> D.Length0 == 1 && D.Length1 >= 4)
    ensures !(K.Length0 == 3 && K.Length1 == 3) ==>
      r.Failure? && r.error == CameraMatrixShape(K.Length0, K.Length1)
    ensures r.Success? ==> (
      D.Length0 == 1 && D.Length1 >= 4 &&
      ValueOf(r.value, K1) == Some(Fixed(D[0, 0], 12)) && ValueOf(r.value, K2) == Some(Fixed(D[0, 1], 12)) &&
      ValueOf(r.value, P1) == Some(Fixed(D[0, 2], 12)) && ValueOf(r.value, P2) == Some(Fixed(D[0, 3], 12)) &&
      ValueOf(r.value, K3) == Some(if D.Length1 >= 5 then Fixed(D[0, 4], 12) else Literal("0.0")))
  {
    var distortion := SliceColumns(D, 0, 5);
    r := WriteOrbSlam3MonoYamlConfig(K, imageSize, distortion);
    if r.Success? {
      ConfigValues(K, imageSize, distortion);
    }
  }
}
