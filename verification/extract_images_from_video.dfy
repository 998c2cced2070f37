/**
 * Frame extraction from a video (src/extract_images_from_video.py).
 *
 * The capture is a flag telling whether the video could be opened and the
 * finite sequence of frames `cap.read()` delivers before it reports the end
 * of the stream; frames are of an opaque type F. What the model keeps is the
 * stride selection with Python's modulo, the running save counter, and the
 * zero-padded file names the saved frames are written under.
 */
module ExtractImagesFromVideo {
  import opened Wrappers
  import opened Text
  import opened Numbers
  import Paths

  // ---------------------------------------------------------------------------
  // Python's integer modulo
  // ---------------------------------------------------------------------------

  /**
   * `a % b` in Python: the remainder takes the sign of the divisor, so
   * `a - a % b` is a multiple of `b`. Dividing by zero is the caller's error.
   */
  function PyMod(a: int, b: int): (r: int)
    requires b != 0
    ensures b > 0 ==> 0 <= r < b
    ensures b < 0 ==> b < r <= 0
    ensures (a - r) % Abs(b) == 0
    ensures r == 0 <==> a % Abs(b) == 0
  {
    var m := a % Abs(b);
    DivModUnique(a - m, Abs(b), a / Abs(b), 0);
    if b < 0 && m != 0 then
      DivModUnique(a - (m + b), Abs(b), a / Abs(b) + 1, 0);
      m + b
    else m
  }

  function Abs(n: int): nat {
    if n < 0 then -n else n
  }

  // ---------------------------------------------------------------------------
  // File names (line 38)
  // ---------------------------------------------------------------------------

  /** `format(n, "0<width>d")` for n >= 0: the decimal digits, left-padded with zeros to `width`. */
  function ZeroPadded(n: nat, width: nat): (z: string)
    ensures AllDigits(z) && |z| >= 1 && |z| >= width
    ensures |DecimalDigits(n)| >= width ==> z == DecimalDigits(n)
  {
    var d := DecimalDigits(n);
    if |d| >= width then d else Zeros(width - |d|) + d
  }

  /** The padded digits still read as n. */
  lemma ZeroPaddedValue(n: nat, width: nat)
    ensures DigitsValue(ZeroPadded(n, width)) == n
  {
    var d := DecimalDigits(n);
    DigitsRoundTrip(n);
    if |d| < width {
      assert ZeroPadded(n, width) == Zeros(width - |d|) + d;
      LeadingZerosIgnored(width - |d|, d);
    } else {
      assert ZeroPadded(n, width) == d;
    }
  }

  /** The padded digits are exactly `width` long while n has at most that many digits. */
  lemma ZeroPaddedWidth(n: nat, width: nat)
    requires width >= 1
    ensures |ZeroPadded(n, width)| == width <==> n < Pow10(width)
  {
    DigitsLength(n, width - 1);
  }

  /** The name of the k-th saved frame: `<prefix>_<k padded to 5 digits>.jpg`. */
  function FrameFileName(prefix: string, k: nat): string {
    prefix + "_" + ZeroPadded(k, 5) + ".jpg"
  }

  /** Reads the save counter back out of a frame file name, when the name has that form. */
  function SavedIndex(prefix: string, name: string): (k: Option<nat>)
  {
    var head := prefix + "_";
    if |name| > |head| + 4 && name[..|head|] == head && name[|name| - 4..] == ".jpg"
       && AllDigits(name[|head|..|name| - 4])
    then Some(DigitsValue(name[|head|..|name| - 4]))
    else None
  }

  /**
   * Every frame file name reads back as the counter it was made from, and has
   * a '/' only where the prefix has one.
   */
  lemma SavedIndexRoundTrip(prefix: string, k: nat)
    ensures SavedIndex(prefix, FrameFileName(prefix, k)) == Some(k)
    ensures '/' in FrameFileName(prefix, k) <==> '/' in prefix
  {
    var head, z := prefix + "_", ZeroPadded(k, 5);
    var name := FrameFileName(prefix, k);
    assert name == head + z + ".jpg";
    assert name[..|head|] == head;
    assert name[|name| - 4..] == ".jpg";
    assert name[|head|..|name| - 4] == z;
    ZeroPaddedValue(k, 5);
    NonDigitAbsent(z, '/');
  }

  /** Different counters give different names, so no saved frame overwrites another. */
  lemma FrameFileNamesDistinct(prefix: string, j: nat, k: nat)
    requires j != k
    ensures FrameFileName(prefix, j) != FrameFileName(prefix, k)
  {
    SavedIndexRoundTrip(prefix, j);
    SavedIndexRoundTrip(prefix, k);
  }

  /** Joining one directory to two names that agree on being absolute gives equal paths only for equal names. */
  lemma JoinInjective(dir: string, a: string, b: string)
    requires (a != [] && a[0] == '/') == (b != [] && b[0] == '/')
    ensures Paths.Join(dir, a) == Paths.Join(dir, b) ==> a == b
  {
    if !(a != [] && a[0] == '/') {
      var head := if dir == [] || dir[|dir| - 1] == '/' then dir else dir + "/";
      assert Paths.Join(dir, a) == head + a;
      assert Paths.Join(dir, b) == head + b;
      if head + a == head + b {
        assert a == (head + a)[|head|..];
        assert b == (head + b)[|head|..];
      }
    }
  }

  /** The path the k-th saved frame is written to. */
  function FramePath(outputDir: string, prefix: string, k: nat): string {
    Paths.Join(outputDir, FrameFileName(prefix, k))
  }

  /** With a prefix free of '/', the k-th frame is written to a file of exactly its frame name. */
  lemma FramePathBasename(outputDir: string, prefix: string, k: nat)
    requires '/' !in prefix
    ensures Paths.Basename(FramePath(outputDir, prefix, k)) == FrameFileName(prefix, k)
  {
    SavedIndexRoundTrip(prefix, k);
    Paths.BasenameOfJoin(outputDir, FrameFileName(prefix, k));
  }

  /** Distinct saved frames are written to distinct paths. */
  lemma FramePathsDistinct(outputDir: string, prefix: string, j: nat, k: nat)
    requires j != k
    ensures FramePath(outputDir, prefix, j) != FramePath(outputDir, prefix, k)
  {
    var a, b := FrameFileName(prefix, j), FrameFileName(prefix, k);
    assert a[0] == b[0] by {
      if prefix == [] {
        assert a[0] == '_' && b[0] == '_';
      } else {
        assert a[0] == prefix[0] && b[0] == prefix[0];
      }
    }
    FrameFileNamesDistinct(prefix, j, k);
    JoinInjective(outputDir, a, b);
  }

  // ---------------------------------------------------------------------------
  // The extraction loop (lines 21-46)
  // ---------------------------------------------------------------------------

  datatype SavedFrame<F> = SavedFrame(path: string, frame: F)

  /** How a call ends. */
  datatype Extraction<F> =
    | CannotOpen
      /** A zero step: the directory was created, then `frame_idx % 0` raised at the first frame. */
    | StepIsZero(directory: string)
    | Extracted(directory: string, saved: seq<SavedFrame<F>>, framesRead: nat)

  /** The number of frames among the first n whose index is a multiple of s: the ceiling of n / s. */
  function CeilDiv(n: nat, s: nat): nat
    requires s > 0
  {
    (n + s - 1) / s
  }

  /** One more frame adds one to the count exactly when its index is a multiple of s, and that frame is the count-th multiple. */
  lemma CeilDivStep(n: nat, s: nat)
    requires s > 0
    ensures CeilDiv(n + 1, s) == CeilDiv(n, s) + (if n % s == 0 then 1 else 0)
    ensures n % s == 0 ==> CeilDiv(n, s) * s == n
  {
    var q, m := n / s, n % s;
    assert n == q * s + m;
    if m == 0 {
      DivModUnique(n + s - 1, s, q, s - 1);
      DivModUnique(n + s, s, q + 1, 0);
    } else {
      DivModUnique(n + s - 1, s, q + 1, m - 1);
      DivModUnique(n + s, s, q + 1, m);
    }
  }

  /**
   * `extract_frames`. An unopened capture returns before anything is created.
   * Otherwise the output directory is created; a zero step raises at the first
   * frame read (and not at all for an empty video); any other step saves frame
   * number k * |step| as the k-th file, `FramePath(outputDir, prefix, k)`, for
   * every such frame the video has, and reads every frame.
   */
  method ExtractFrames<F>(isOpen: bool, frames: seq<F>, outputDir: string, step: int, prefix: string)
    returns (r: Extraction<F>)
    ensures r.CannotOpen? <==> !isOpen
    ensures r.StepIsZero? <==> isOpen && step == 0 && |frames| > 0
    ensures r.StepIsZero? ==> r.directory == outputDir
    ensures r.Extracted? ==> r.directory == outputDir && r.framesRead == |frames|
    ensures r.Extracted? && step == 0 ==> r.saved == []
    ensures r.Extracted? && step != 0 ==>
      |r.saved| == CeilDiv(|frames|, Abs(step)) &&
      forall k :: 0 <= k < |r.saved| ==>
        k * Abs(step) < |frames| &&
        r.saved[k] == SavedFrame(FramePath(outputDir, prefix, k), frames[k * Abs(step)])
  {
    if !isOpen {
      return CannotOpen;
    }
    var frameIdx := 0;
    var savedIdx := 0;
    var saved: seq<SavedFrame<F>> := [];
    while true
      invariant 0 <= frameIdx <= |frames|
      invariant step == 0 ==> frameIdx == 0 && saved == []
      invariant savedIdx == |saved|
      invariant step != 0 ==>
        |saved| == CeilDiv(frameIdx, Abs(step)) &&
        forall k :: 0 <= k < |saved| ==>
          k * Abs(step) < frameIdx &&
          saved[k] == SavedFrame(FramePath(outputDir, prefix, k), frames[k * Abs(step)])
      decreases |frames| - frameIdx
    {
      if frameIdx == |frames| {
        break;
      }
      var frame := frames[frameIdx];
      if step == 0 {
        return StepIsZero(outputDir);
      }
      CeilDivStep(frameIdx, Abs(step));
      if PyMod(frameIdx, step) == 0 {
        var filename := FramePath(outputDir, prefix, savedIdx);
        saved := saved + [SavedFrame(filename, frame)];
        savedIdx := savedIdx + 1;
      }
      frameIdx := frameIdx + 1;
    }
    return Extracted(outputDir, saved, frameIdx);
  }

  /**
   * Which frames are saved: with n frames read and stride s, the k-th saved
   * frame is a frame the video has, and every frame whose index is a multiple
   * of s is the (index / s)-th saved one.
   */
  lemma SavedAreTheMultiples(n: nat, s: nat)
    requires s > 0
    ensures forall k :: 0 <= k < CeilDiv(n, s) ==> k * s < n
    ensures forall i :: 0 <= i < n && i % s == 0 ==> i / s < CeilDiv(n, s) && i / s * s == i
  {
    forall k | 0 <= k < CeilDiv(n, s) ensures k * s < n {
      SavedFrameExists(n, s, k);
    }
    forall i | 0 <= i < n && i % s == 0 ensures i / s < CeilDiv(n, s) && i / s * s == i {
      MultipleIsSaved(n, s, i);
    }
  }

  lemma SavedFrameExists(n: nat, s: nat, k: nat)
    requires s > 0 && k < CeilDiv(n, s)
    ensures k * s < n
  {
    var c := CeilDiv(n, s);
    assert c * s <= n + s - 1;
    MulMonotone(k, c - 1, s);
    assert (c - 1) * s == c * s - s;
  }

  lemma MultipleIsSaved(n: nat, s: nat, i: nat)
    requires s > 0 && i < n && i % s == 0
    ensures i / s < CeilDiv(n, s) && i / s * s == i
  {
    var q := i / s;
    assert i == q * s;
    DivModUnique(i + s, s, q + 1, 0);
    DivMonotone(i + s, n + s - 1, s);
  }
}
