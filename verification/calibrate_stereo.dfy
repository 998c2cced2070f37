/**
 * Stereo calibration bookkeeping (src/calibrate_stereo.py): assembling the
 * 4x4 homogeneous transform from R and T, writing it as comma-separated text,
 * and pairing the left and right detection results by position before they
 * are handed to the stereo solver.
 *
 * numpy arrays are `array2<real>`. The float-to-decimal rounding of the
 * writer is an oracle `render` giving sign, integer part and 14 fraction
 * digits; the text layout built from those digits is modelled exactly.
 */
module CalibrateStereo {
  import opened Wrappers
  import opened Text
  import Chessboard

  // ---------------------------------------------------------------------------
  // create_transformation_matrix
  // ---------------------------------------------------------------------------

  /** The numpy assignment that failed to broadcast. */
  datatype AssemblyError =
    | RotationShape(rows: nat, cols: nat)   // `M[0:3, 0:3] = R`
    | TranslationSize(size: nat)            // `M[0:3, 3] = T.flatten()`

  /** An axis of this length broadcasts onto an axis of length 3. */
  predicate BroadcastsToThree(n: nat) {
    n == 1 || n == 3
  }

  /** Entry (i, j) of R broadcast to 3x3: an axis of length 1 repeats its only entry. */
  function RotationAt(R: array2<real>, i: nat, j: nat): real
    reads R
    requires i < 3 && j < 3 && BroadcastsToThree(R.Length0) && BroadcastsToThree(R.Length1)
  {
    R[if R.Length0 == 1 then 0 else i, if R.Length1 == 1 then 0 else j]
  }

  /** `T.flatten()[k]`: row-major position k of T. */
  function FlatAt(T: array2<real>, k: nat): real
    reads T
    requires k < T.Length0 * T.Length1
  {
    FlatIndex(k, T.Length0, T.Length1);
    T[k / T.Length1, k % T.Length1]
  }

  lemma FlatIndex(k: nat, a: nat, b: nat)
    requires k < a * b
    ensures b > 0 && k / b < a
  {
  }

  /** Entry i of `T.flatten()` broadcast to length 3. */
  function TranslationAt(T: array2<real>, i: nat): real
    reads T
    requires i < 3 && BroadcastsToThree(T.Length0 * T.Length1)
  {
    FlatAt(T, if T.Length0 * T.Length1 == 1 then 0 else i)
  }

  /** M is `np.eye(4)` with the rotation block and the translation column written in. */
  predicate IsTransformation(M: array2<real>, R: array2<real>, T: array2<real>)
    reads M, R, T
  {
    M.Length0 == 4 && M.Length1 == 4 &&
    BroadcastsToThree(R.Length0) && BroadcastsToThree(R.Length1) &&
    BroadcastsToThree(T.Length0 * T.Length1) &&
    (forall i, j :: 0 <= i < 3 && 0 <= j < 3 ==> M[i, j] == RotationAt(R, i, j)) &&
    (forall i :: 0 <= i < 3 ==> M[i, 3] == TranslationAt(T, i)) &&
    M[3, 0] == 0.0 && M[3, 1] == 0.0 && M[3, 2] == 0.0 && M[3, 3] == 1.0
  }

  /**
   * Lines 7-11. Fails exactly when numpy cannot broadcast R onto the 3x3
   * block (checked first) or T's entries onto the 3-entry column.
   */
  method CreateTransformationMatrix(R: array2<real>, T: array2<real>) returns (r: Result<array2<real>, AssemblyError>)
    ensures r.Failure? <==>
      !(BroadcastsToThree(R.Length0) && BroadcastsToThree(R.Length1) && BroadcastsToThree(T.Length0 * T.Length1))
    ensures r.Failure? ==>
      r.error == if BroadcastsToThree(R.Length0) && BroadcastsToThree(R.Length1)
                 then TranslationSize(T.Length0 * T.Length1) else RotationShape(R.Length0, R.Length1)
    ensures r.Success? ==> IsTransformation(r.value, R, T)
  {
    if !(BroadcastsToThree(R.Length0) && BroadcastsToThree(R.Length1)) {
      return Failure(RotationShape(R.Length0, R.Length1));
    }
    if !BroadcastsToThree(T.Length0 * T.Length1) {
      return Failure(TranslationSize(T.Length0 * T.Length1));
    }
    var M := new real[4, 4]((i, j) => if i == j then 1.0 else 0.0);
    for i := 0 to 3
      invariant forall a, b :: 0 <= a < i && 0 <= b < 3 ==> M[a, b] == RotationAt(R, a, b)
      invariant forall a, b :: i <= a < 4 && 0 <= b < 4 ==> M[a, b] == if a == b then 1.0 else 0.0
      invariant forall a :: 0 <= a < i ==> M[a, 3] == 0.0
    {
      for j := 0 to 3
        invariant forall a, b :: 0 <= a < i && 0 <= b < 3 ==> M[a, b] == RotationAt(R, a, b)
        invariant forall b :: 0 <= b < j ==> M[i, b] == RotationAt(R, i, b)
        invariant forall b :: j <= b < 4 ==> M[i, b] == if i == b then 1.0 else 0.0
        invariant forall a, b :: i < a < 4 && 0 <= b < 4 ==> M[a, b] == if a == b then 1.0 else 0.0
        invariant forall a :: 0 <= a < i ==> M[a, 3] == 0.0
      {
        M[i, j] := RotationAt(R, i, j);
      }
    }
    for i := 0 to 3
      invariant forall a, b :: 0 <= a < 3 && 0 <= b < 3 ==> M[a, b] == RotationAt(R, a, b)
      invariant forall a :: 0 <= a < i ==> M[a, 3] == TranslationAt(T, a)
      invariant M[3, 0] == 0.0 && M[3, 1] == 0.0 && M[3, 2] == 0.0 && M[3, 3] == 1.0
    {
      M[i, 3] := TranslationAt(T, i);
    }
    return Success(M);
  }

  /** Row i of M times the column vector v. */
  function RowTimes(M: array2<real>, i: nat, v: seq<real>): real
    reads M
    requires i < M.Length0 && M.Length1 == 4 && |v| == 4
  {
    M[i, 0] * v[0] + M[i, 1] * v[1] + M[i, 2] * v[2] + M[i, 3] * v[3]
  }

  /**
   * For the shapes the solver returns (R 3x3, T 3x1) the matrix maps the
   * homogeneous point (p, 1) to (R p + T, 1): it is the rigid transform.
   */
  lemma TransformationActsRigidly(M: array2<real>, R: array2<real>, T: array2<real>, p: seq<real>)
    requires IsTransformation(M, R, T)
    requires R.Length0 == 3 && R.Length1 == 3 && T.Length0 == 3 && T.Length1 == 1 && |p| == 3
    ensures forall i :: 0 <= i < 3 ==>
      RowTimes(M, i, p + [1.0]) == R[i, 0] * p[0] + R[i, 1] * p[1] + R[i, 2] * p[2] + T[i, 0]
    ensures RowTimes(M, 3, p + [1.0]) == 1.0
  {
    forall i | 0 <= i < 3
      ensures RowTimes(M, i, p + [1.0]) == R[i, 0] * p[0] + R[i, 1] * p[1] + R[i, 2] * p[2] + T[i, 0]
    {
      assert M[i, 0] == R[i, 0] && M[i, 1] == R[i, 1] && M[i, 2] == R[i, 2];
      assert M[i, 3] == FlatAt(T, i) == T[i, 0];
    }
  }

  // ---------------------------------------------------------------------------
  // The `:0,.14f` field format
  // ---------------------------------------------------------------------------

  /** A float rounded to 14 fraction digits: sign, integer part and the fraction digits. */
  datatype Decimal = Decimal(negative: bool, whole: nat, fraction: string)

  type Fixed14 = d: Decimal | |d.fraction| == 14 && AllDigits(d.fraction)
    witness Decimal(false, 0, "00000000000000")

  /** `format(x, "0,.14f")` once x is rounded: sign, grouped integer digits, '.', 14 digits. */
  function FormatFixed(d: Decimal): string {
    (if d.negative then "-" else "") + GroupThousands(DecimalDigits(d.whole)) + "." + d.fraction
  }

  /** Reads a field back: optional '-', digits possibly grouped by ',', '.', 14 digits. */
  function ParseFixed(s: string): (r: Option<Decimal>)
    ensures r.Some? ==> |r.value.fraction| == 14 && AllDigits(r.value.fraction)
  {
    var negative := s != [] && s[0] == '-';
    var body := if negative then s[1..] else s;
    var parts := Split(body, '.');
    if |parts| == 2 && Remove(parts[0], ',') != [] && AllDigits(Remove(parts[0], ','))
       && |parts[1]| == 14 && AllDigits(parts[1])
    then Some(Decimal(negative, DigitsValue(Remove(parts[0], ',')), parts[1]))
    else None
  }

  /** Every formatted field reads back as the decimal it was written from. */
  lemma {:induction false} ParseFormatRoundTrip(d: Fixed14)
    ensures ParseFixed(FormatFixed(d)) == Some(d)
  {
    var digits := DecimalDigits(d.whole);
    var g := GroupThousands(digits);
    NonDigitAbsent(digits, ',');
    NonDigitAbsent(digits, '.');
    NonDigitAbsent(digits, '-');
    GroupThousandsChars(digits, '.');
    GroupThousandsChars(digits, '-');
    assert Remove(g, ',') == digits by {
      UngroupThousands(digits);
    }
    DigitsRoundTrip(d.whole);
    assert g[0] != '-' by {
      assert g[0] in g;
    }
    FormatFixedSigned(d);
    ParseParts(d.negative, g, d.fraction);
  }

  /** A sign, grouped digits, '.' and 14 fraction digits read back as the decimal they spell. */
  lemma ParseParts(negative: bool, g: string, fraction: string)
    requires g != [] && g[0] != '-' && '.' !in g
    requires Remove(g, ',') != [] && AllDigits(Remove(g, ','))
    requires |fraction| == 14 && AllDigits(fraction)
    ensures ParseFixed((if negative then "-" else "") + (g + "." + fraction)) ==
      Some(Decimal(negative, DigitsValue(Remove(g, ',')), fraction))
  {
    var body := g + "." + fraction;
    assert body[0] == g[0];
    SignedBody(negative, body);
    BodySplits(g, fraction);
  }

  /** The body splits at its one '.' into the grouped digits and the fraction. */
  lemma BodySplits(g: string, fraction: string)
    requires '.' !in g && AllDigits(fraction)
    ensures Split(g + "." + fraction, '.') == [g, fraction]
  {
    NonDigitAbsent(fraction, '.');
    SplitAfterPiece(g, '.', fraction);
    SplitWithoutSeparator(fraction, '.');
  }

  /** A field is its sign, then its body: the grouped digits, '.', and the fraction. */
  lemma FormatFixedSigned(d: Decimal)
    ensures FormatFixed(d) ==
      (if d.negative then "-" else "") + (GroupThousands(DecimalDigits(d.whole)) + "." + d.fraction)
  {
  }

  /** An optional '-' in front of a body that does not start with one is recognised and stripped. */
  lemma SignedBody(negative: bool, body: string)
    requires body != [] && body[0] != '-'
    ensures var s := (if negative then "-" else "") + body;
      (s != [] && s[0] == '-') == negative && (if negative then s[1..] else s) == body
  {
    if negative {
      assert ("-" + body)[1..] == body;
    } else {
      assert "" + body == body;
    }
  }

  /**
   * A field never holds a line break, and holds a ',' exactly when its
   * integer part has four or more digits (the grouping separator).
   */
  lemma {:induction false} FormatFixedChars(d: Fixed14)
    ensures '\n' !in FormatFixed(d)
    ensures ',' in FormatFixed(d) <==> d.whole >= 1000
  {
    var digits := DecimalDigits(d.whole);
    assert ',' !in digits && '\n' !in digits by {
      forall c | c in digits ensures IsDigit(c) {
        var i :| 0 <= i < |digits| && digits[i] == c;
      }
    }
    assert ',' !in d.fraction && '\n' !in d.fraction by {
      forall c | c in d.fraction ensures IsDigit(c) {
        var i :| 0 <= i < |d.fraction| && d.fraction[i] == c;
      }
    }
    GroupThousandsChars(digits, ',');
    GroupThousandsChars(digits, '\n');
    DigitsLength(d.whole, 2);
    assert Pow10(3) == 1000;
    var s := FormatFixed(d);
    assert forall c :: c in s <==>
      (d.negative && c == '-') || c in GroupThousands(digits) || c == '.' || c in d.fraction;
  }

  // ---------------------------------------------------------------------------
  // write_transformation_matrix_to_file
  // ---------------------------------------------------------------------------

  datatype WriteError = NotFourByFour(rows: nat, cols: nat)

  /** The text of field (i, j). */
  function Field(M: array2<real>, render: real -> Fixed14, i: nat, j: nat): string
    reads M
    requires i < M.Length0 && j < M.Length1
  {
    FormatFixed(render(M[i, j]))
  }

  /** The first j fields of row i, each of the first three followed by ','. */
  function RowPrefix(M: array2<real>, render: real -> Fixed14, i: nat, j: nat): string
    reads M
    requires i < M.Length0 && j <= M.Length1
  {
    if j == 0 then ""
    else RowPrefix(M, render, i, j - 1) + Field(M, render, i, j - 1) + (if j - 1 < 3 then "," else "")
  }

  /** Line i of the file, without its line break. */
  function Line(M: array2<real>, render: real -> Fixed14, i: nat): string
    reads M
    requires i < M.Length0 && M.Length1 == 4
  {
    RowPrefix(M, render, i, 4)
  }

  /** The first n lines, each ended by a line break. */
  function MatrixText(M: array2<real>, render: real -> Fixed14, n: nat): string
    reads M
    requires n <= M.Length0 && M.Length1 == 4
  {
    if n == 0 then "" else MatrixText(M, render, n - 1) + Line(M, render, n - 1) + "\n"
  }

  /** The first n lines as a list. */
  function Lines(M: array2<real>, render: real -> Fixed14, n: nat): (ls: seq<string>)
    reads M
    requires n <= M.Length0 && M.Length1 == 4
    ensures |ls| == n
  {
    if n == 0 then [] else Lines(M, render, n - 1) + [Line(M, render, n - 1)]
  }

  /**
   * Lines 13-22. A matrix that is not 4x4 raises before anything is written;
   * otherwise the file holds the four lines of the matrix.
   */
  method WriteTransformationMatrixToFile(M: array2<real>, render: real -> Fixed14) returns (r: Result<string, WriteError>)
    ensures r.Failure? <==> !(M.Length0 == 4 && M.Length1 == 4)
    ensures r.Failure? ==> r.error == NotFourByFour(M.Length0, M.Length1)
    ensures r.Success? ==> M.Length0 == 4 && M.Length1 == 4 && r.value == MatrixText(M, render, 4)
  {
    if M.Length0 != 4 || M.Length1 != 4 {
      return Failure(NotFourByFour(M.Length0, M.Length1));
    }
    var text := "";
    for i := 0 to 4
      invariant text == MatrixText(M, render, i)
    {
      var line := WriteRow(M, render, i);
      text := text + line + "\n";
    }
    return Success(text);
  }

  /** The inner loop of lines 18-21: the four fields of row i and the commas between them. */
  method WriteRow(M: array2<real>, render: real -> Fixed14, i: nat) returns (line: string)
    requires i < M.Length0 && M.Length1 == 4
    ensures line == Line(M, render, i)
  {
    line := "";
    for j := 0 to 4
      invariant line == RowPrefix(M, render, i, j)
    {
      line := line + FormatFixed(render(M[i, j]));
      if j < 3 {
        line := line + ",";
      }
    }
  }

  /** A line is its four fields separated by three commas. */
  lemma LineFields(M: array2<real>, render: real -> Fixed14, i: nat)
    requires i < M.Length0 && M.Length1 == 4
    ensures Line(M, render, i) ==
      Field(M, render, i, 0) + "," + Field(M, render, i, 1) + "," + Field(M, render, i, 2) + "," + Field(M, render, i, 3)
  {
    assert RowPrefix(M, render, i, 1) == Field(M, render, i, 0) + ",";
    assert RowPrefix(M, render, i, 2) == RowPrefix(M, render, i, 1) + Field(M, render, i, 1) + ",";
    assert RowPrefix(M, render, i, 3) == RowPrefix(M, render, i, 2) + Field(M, render, i, 2) + ",";
    assert RowPrefix(M, render, i, 4) == RowPrefix(M, render, i, 3) + Field(M, render, i, 3) + "";
  }

  lemma {:induction false} LineHasNoBreak(M: array2<real>, render: real -> Fixed14, i: nat)
    requires i < M.Length0 && M.Length1 == 4
    ensures '\n' !in Line(M, render, i)
  {
    LineFields(M, render, i);
    FormatFixedChars(render(M[i, 0]));
    FormatFixedChars(render(M[i, 1]));
    FormatFixedChars(render(M[i, 2]));
    FormatFixedChars(render(M[i, 3]));
  }

  /** Splitting the written text at line breaks gives the lines, then what follows them. */
  lemma MatrixTextSplits(M: array2<real>, render: real -> Fixed14, n: nat, rest: string)
    requires n <= M.Length0 && M.Length1 == 4
    ensures Split(MatrixText(M, render, n) + rest, '\n') == Lines(M, render, n) + Split(rest, '\n')
  {
    var ls := Lines(M, render, n);
    MatrixTextTerminated(M, render, n);
    forall k | 0 <= k < |ls| ensures '\n' !in ls[k] {
      LinesAt(M, render, n, k);
      LineHasNoBreak(M, render, k);
    }
    TerminatedSplits(ls, rest);
  }

  /** Entry k of the first n lines is line k. */
  lemma {:induction false} LinesAt(M: array2<real>, render: real -> Fixed14, n: nat, k: nat)
    requires k < n <= M.Length0 && M.Length1 == 4
    ensures Lines(M, render, n)[k] == Line(M, render, k)
  {
    if k < n - 1 {
      LinesAt(M, render, n - 1, k);
    }
  }

  /** The written text is the lines, each ended by a line break. */
  lemma {:induction false} MatrixTextTerminated(M: array2<real>, render: real -> Fixed14, n: nat)
    requires n <= M.Length0 && M.Length1 == 4
    ensures MatrixText(M, render, n) == Terminated(Lines(M, render, n))
  {
    if n > 0 {
      MatrixTextTerminated(M, render, n - 1);
      var ls := Lines(M, render, n);
      assert ls[..n - 1] == Lines(M, render, n - 1);
    }
  }

  /** Lines each followed by a line break. */
  function Terminated(ls: seq<string>): string {
    if ls == [] then "" else Terminated(ls[..|ls| - 1]) + ls[|ls| - 1] + "\n"
  }

  /** Lines without breaks, each ended by one, split back into those lines. */
  lemma {:induction false} TerminatedSplits(ls: seq<string>, rest: string)
    requires forall k :: 0 <= k < |ls| ==> '\n' !in ls[k]
    ensures Split(Terminated(ls) + rest, '\n') == ls + Split(rest, '\n')
  {
    if ls == [] {
      assert Terminated(ls) + rest == rest;
    } else {
      var init, line := ls[..|ls| - 1], ls[|ls| - 1];
      var tail := line + ['\n'] + rest;
      var after := Split(rest, '\n');
      assert Split(tail, '\n') == [line] + after by {
        SplitAfterPiece(line, '\n', rest);
      }
      assert Split(Terminated(ls) + rest, '\n') == init + Split(tail, '\n') by {
        assert Terminated(ls) + rest == Terminated(init) + tail by {
          assert Terminated(ls) == Terminated(init) + line + ['\n'];
        }
        TerminatedSplits(init, tail);
      }
      assert ls + after == init + ([line] + after);
    }
  }

  /** The file has exactly four lines, each ended by a line break, holding the four matrix rows. */
  lemma WrittenLines(M: array2<real>, render: real -> Fixed14)
    requires M.Length0 == 4 && M.Length1 == 4
    ensures Split(MatrixText(M, render, 4), '\n') ==
      [Line(M, render, 0), Line(M, render, 1), Line(M, render, 2), Line(M, render, 3), ""]
  {
    MatrixTextSplits(M, render, 4, "");
    assert MatrixText(M, render, 4) + "" == MatrixText(M, render, 4);
    assert Lines(M, render, 4) == [Line(M, render, 0), Line(M, render, 1), Line(M, render, 2), Line(M, render, 3)] by {
      assert Lines(M, render, 1) == [Line(M, render, 0)];
      assert Lines(M, render, 2) == Lines(M, render, 1) + [Line(M, render, 1)];
      assert Lines(M, render, 3) == Lines(M, render, 2) + [Line(M, render, 2)];
    }
  }

  /**
   * While every integer part of row i stays below 1000, splitting line i at
   * commas gives back the four fields, each of which reads back as its value.
   */
  lemma {:induction false} UngroupedLineSplits(M: array2<real>, render: real -> Fixed14, i: nat)
    requires i < M.Length0 && M.Length1 == 4
    requires forall j :: 0 <= j < 4 ==> render(M[i, j]).whole < 1000
    ensures Split(Line(M, render, i), ',') ==
      [Field(M, render, i, 0), Field(M, render, i, 1), Field(M, render, i, 2), Field(M, render, i, 3)]
    ensures forall j :: 0 <= j < 4 ==> ParseFixed(Split(Line(M, render, i), ',')[j]) == Some(render(M[i, j]))
  {
    var f0, f1, f2, f3 := Field(M, render, i, 0), Field(M, render, i, 1), Field(M, render, i, 2), Field(M, render, i, 3);
    assert Split(Line(M, render, i), ',') == [f0, f1, f2, f3] by {
      FormatFixedChars(render(M[i, 0]));
      FormatFixedChars(render(M[i, 1]));
      FormatFixedChars(render(M[i, 2]));
      FormatFixedChars(render(M[i, 3]));
      LineFields(M, render, i);
      SplitJoinedFour(f0, f1, f2, f3, ',');
    }
    forall j | 0 <= j < 4
      ensures ParseFixed(Split(Line(M, render, i), ',')[j]) == Some(render(M[i, j]))
    {
      assert Split(Line(M, render, i), ',')[j] == Field(M, render, i, j);
      ParseFormatRoundTrip(render(M[i, j]));
    }
  }

  /**
   * The grouping caveat of the `,` format option: one value of 1000 or more in
   * row i puts an extra comma into line i, which then splits into more than
   * four pieces.
   */
  lemma {:induction false} GroupedLineOversplits(M: array2<real>, render: real -> Fixed14, i: nat, j: nat)
    requires i < M.Length0 && M.Length1 == 4 && j < 4
    requires render(M[i, j]).whole >= 1000
    ensures |Split(Line(M, render, i), ',')| > 4
  {
    var f0, f1, f2, f3 := Field(M, render, i, 0), Field(M, render, i, 1), Field(M, render, i, 2), Field(M, render, i, 3);
    LineFields(M, render, i);
    FormatFixedChars(render(M[i, j]));
    assert ',' in [f0, f1, f2, f3][j];
    OversplitJoinedFour(f0, f1, f2, f3, j);
  }

  /** Four pieces free of the separator, joined by it, split back into those pieces. */
  lemma SplitJoinedFour(f0: string, f1: string, f2: string, f3: string, sep: char)
    requires sep !in f0 && sep !in f1 && sep !in f2 && sep !in f3
    ensures Split(f0 + [sep] + f1 + [sep] + f2 + [sep] + f3, sep) == [f0, f1, f2, f3]
  {
    var t3 := f2 + [sep] + f3;
    var t2 := f1 + [sep] + t3;
    assert f0 + [sep] + f1 + [sep] + f2 + [sep] + f3 == f0 + [sep] + t2;
    assert Split(t3, sep) == [f2, f3] by {
      SplitAfterPiece(f2, sep, f3);
      SplitWithoutSeparator(f3, sep);
    }
    assert Split(t2, sep) == [f1, f2, f3] by {
      SplitAfterPiece(f1, sep, t3);
    }
    SplitAfterPiece(f0, sep, t2);
  }

  /** Four pieces joined by ',' split into more than four when one of them holds a ',' itself. */
  lemma OversplitJoinedFour(f0: string, f1: string, f2: string, f3: string, j: nat)
    requires j < 4 && ',' in [f0, f1, f2, f3][j]
    ensures |Split(f0 + "," + f1 + "," + f2 + "," + f3, ',')| > 4
  {
    var line := f0 + "," + f1 + "," + f2 + "," + f3;
    CountAppend(f0 + "," + f1 + "," + f2 + ",", f3, ',');
    CountAppend(f0 + "," + f1 + "," + f2, ",", ',');
    CountAppend(f0 + "," + f1 + ",", f2, ',');
    CountAppend(f0 + "," + f1, ",", ',');
    CountAppend(f0 + ",", f1, ',');
    CountAppend(f0, ",", ',');
    assert Count(",", ',') == 1;
    CountPositive([f0, f1, f2, f3][j], ',');
    SplitCount(line, ',');
  }

  // ---------------------------------------------------------------------------
  // Pairing the left and right detections (lines 58-82)
  // ---------------------------------------------------------------------------

  datatype PairError = CountMismatch(left: nat, right: nat)

  /** The six `_valid` lists handed to the stereo solver. */
  datatype StereoViews<P> = StereoViews(
    imagePointsLeft: seq<Option<P>>, imagePointsRight: seq<Option<P>>,
    objectPointsLeft: seq<Option<seq<Chessboard.Point3>>>, objectPointsRight: seq<Option<seq<Chessboard.Point3>>>,
    fileNamesLeft: seq<Option<string>>, fileNamesRight: seq<Option<string>>)

  /** The positions below n at which both image-point entries are present, in increasing order. */
  function KeptPairs<P>(left: seq<Option<P>>, right: seq<Option<P>>, n: nat): (kept: seq<nat>)
    requires n <= |left| && n <= |right|
    ensures forall k :: 0 <= k < |kept| ==> kept[k] < n
  {
    if n == 0 then []
    else KeptPairs(left, right, n - 1) + (if left[n - 1].Some? && right[n - 1].Some? then [n - 1] else [])
  }

  /**
   * Position i is kept exactly when both sides are present there, and the
   * kept positions keep their order: no pair is dropped, duplicated or moved.
   */
  lemma {:induction false} KeptPairsSpec<P>(left: seq<Option<P>>, right: seq<Option<P>>, n: nat)
    requires n <= |left| && n <= |right|
    ensures var kept := KeptPairs(left, right, n);
      |kept| <= n &&
      (forall a, b :: 0 <= a < b < |kept| ==> kept[a] < kept[b]) &&
      (forall i: nat :: i in kept <==> i < n && left[i].Some? && right[i].Some?)
  {
    if n > 0 {
      KeptPairsSpec(left, right, n - 1);
    }
  }

  /** The entries of s at the positions idx, in that order. */
  function Pick<T>(s: seq<T>, idx: seq<nat>): (r: seq<T>)
    requires forall k :: 0 <= k < |idx| ==> idx[k] < |s|
    ensures |r| == |idx| && forall k :: 0 <= k < |idx| ==> r[k] == s[idx[k]]
  {
    if idx == [] then [] else [s[idx[0]]] + Pick(s, idx[1..])
  }

  lemma {:induction false} PickAppend<T>(s: seq<T>, idx: seq<nat>, i: nat)
    requires forall k :: 0 <= k < |idx| ==> idx[k] < |s|
    requires i < |s|
    ensures Pick(s, idx + [i]) == Pick(s, idx) + [s[i]]
  {
  }

  predicate Pairable<P>(left: Chessboard.Detections<P>, right: Chessboard.Detections<P>, n: nat) {
    left.SameLength() && right.SameLength() && n <= |left.imagePoints| && n <= |right.imagePoints|
  }

  /** What the pairing loop has appended after visiting positions 0 .. n-1. */
  function PairedUpTo<P>(left: Chessboard.Detections<P>, right: Chessboard.Detections<P>, n: nat): StereoViews<P>
    requires Pairable(left, right, n)
  {
    if n == 0 then StereoViews([], [], [], [], [], [])
    else
      var v := PairedUpTo(left, right, n - 1);
      var i := n - 1;
      if left.imagePoints[i].None? || right.imagePoints[i].None? then v
      else StereoViews(
        v.imagePointsLeft + [left.imagePoints[i]], v.imagePointsRight + [right.imagePoints[i]],
        v.objectPointsLeft + [left.objectPoints[i]], v.objectPointsRight + [right.objectPoints[i]],
        v.fileNamesLeft + [left.fileNames[i]], v.fileNamesRight + [right.fileNames[i]])
  }

  /** Each of the six lists is its input list read at the kept positions. */
  ghost predicate PicksKept<P>(v: StereoViews<P>, left: Chessboard.Detections<P>, right: Chessboard.Detections<P>, n: nat)
    requires Pairable(left, right, n)
  {
    var kept := KeptPairs(left.imagePoints, right.imagePoints, n);
    v.imagePointsLeft == Pick(left.imagePoints, kept) && v.imagePointsRight == Pick(right.imagePoints, kept) &&
    v.objectPointsLeft == Pick(left.objectPoints, kept) && v.objectPointsRight == Pick(right.objectPoints, kept) &&
    v.fileNamesLeft == Pick(left.fileNames, kept) && v.fileNamesRight == Pick(right.fileNames, kept)
  }

  lemma {:induction false} PairedUpToPicks<P>(left: Chessboard.Detections<P>, right: Chessboard.Detections<P>, n: nat)
    requires Pairable(left, right, n)
    ensures PicksKept(PairedUpTo(left, right, n), left, right, n)
  {
    if n > 0 {
      var i := n - 1;
      PairedUpToPicks(left, right, i);
      var v0, v := PairedUpTo(left, right, i), PairedUpTo(left, right, n);
      var kept0 := KeptPairs(left.imagePoints, right.imagePoints, i);
      var kept := KeptPairs(left.imagePoints, right.imagePoints, n);
      if left.imagePoints[i].Some? && right.imagePoints[i].Some? {
        assert kept == kept0 + [i];
        assert v.imagePointsLeft == Pick(left.imagePoints, kept) by { PickAppend(left.imagePoints, kept0, i); }
        assert v.imagePointsRight == Pick(right.imagePoints, kept) by { PickAppend(right.imagePoints, kept0, i); }
        assert v.objectPointsLeft == Pick(left.objectPoints, kept) by { PickAppend(left.objectPoints, kept0, i); }
        assert v.objectPointsRight == Pick(right.objectPoints, kept) by { PickAppend(right.objectPoints, kept0, i); }
        assert v.fileNamesLeft == Pick(left.fileNames, kept) by { PickAppend(left.fileNames, kept0, i); }
        assert v.fileNamesRight == Pick(right.fileNames, kept) by { PickAppend(right.fileNames, kept0, i); }
      } else {
        assert kept == kept0 && v == v0;
      }
    }
  }

  /**
   * Lines 58-82. Unequal result counts abort before any pairing; otherwise
   * each of the six lists holds its input at the positions where both image
   * entries are present, so the outputs stay aligned pair by pair.
   */
  method PairViews<P>(left: Chessboard.Detections<P>, right: Chessboard.Detections<P>)
    returns (r: Result<StereoViews<P>, PairError>)
    requires left.SameLength() && right.SameLength()
    ensures r.Failure? <==> |left.imagePoints| != |right.imagePoints|
    ensures r.Failure? ==> r.error == CountMismatch(|left.imagePoints|, |right.imagePoints|)
    ensures r.Success? ==> PicksKept(r.value, left, right, |left.imagePoints|)
  {
    if |left.imagePoints| != |right.imagePoints| {
      return Failure(CountMismatch(|left.imagePoints|, |right.imagePoints|));
    }
    var numberOfPairs := |left.imagePoints|;
    var imagePointsLeft, imagePointsRight := [], [];
    var objectPointsLeft, objectPointsRight := [], [];
    var fileNamesLeft, fileNamesRight := [], [];
    for i := 0 to numberOfPairs
      invariant StereoViews(imagePointsLeft, imagePointsRight, objectPointsLeft, objectPointsRight,
                            fileNamesLeft, fileNamesRight) == PairedUpTo(left, right, i)
    {
      if left.imagePoints[i].None? || right.imagePoints[i].None? {
        continue;
      }
      imagePointsLeft := imagePointsLeft + [left.imagePoints[i]];
      imagePointsRight := imagePointsRight + [right.imagePoints[i]];
      objectPointsLeft := objectPointsLeft + [left.objectPoints[i]];
      objectPointsRight := objectPointsRight + [right.objectPoints[i]];
      fileNamesLeft := fileNamesLeft + [left.fileNames[i]];
      fileNamesRight := fileNamesRight + [right.fileNames[i]];
    }
    PairedUpToPicks(left, right, numberOfPairs);
    return Success(StereoViews(imagePointsLeft, imagePointsRight, objectPointsLeft, objectPointsRight,
                               fileNamesLeft, fileNamesRight));
  }

  /**
   * When both sides keep the placeholder protocol, every entry handed to the
   * solver is present: checking only the image points is enough.
   */
  lemma {:induction false} PairedViewsPresent<P>(left: Chessboard.Detections<P>, right: Chessboard.Detections<P>,
                                                v: StereoViews<P>)
    requires left.Aligned() && right.Aligned() && |left.imagePoints| == |right.imagePoints|
    requires PicksKept(v, left, right, |left.imagePoints|)
    ensures forall k :: 0 <= k < |v.imagePointsLeft| ==>
      v.imagePointsLeft[k].Some? && v.imagePointsRight[k].Some? &&
      v.objectPointsLeft[k].Some? && v.objectPointsRight[k].Some? &&
      v.fileNamesLeft[k].Some? && v.fileNamesRight[k].Some?
  {
    var n := |left.imagePoints|;
    var kept := KeptPairs(left.imagePoints, right.imagePoints, n);
    KeptPairsSpec(left.imagePoints, right.imagePoints, n);
    forall k | 0 <= k < |v.imagePointsLeft|
      ensures v.imagePointsLeft[k].Some? && v.imagePointsRight[k].Some? &&
              v.objectPointsLeft[k].Some? && v.objectPointsRight[k].Some? &&
              v.fileNamesLeft[k].Some? && v.fileNamesRight[k].Some?
    {
      assert kept[k] in kept;
    }
  }
}
