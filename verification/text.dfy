/**
 * The small part of Python's string behaviour the calibration scripts rely on:
 * lower-casing, suffix tests, decimal digits, the code-point order that
 * `list.sort()` uses on `str`, and that sort itself. Splitting on a separator
 * is not something the scripts do; it is here only to read back the text they
 * write.
 */
module Text {

  // ---------------------------------------------------------------------------
  // Characters and suffixes
  // ---------------------------------------------------------------------------

  /** `str.lower()` on one character, for the ASCII letters. */
  function LowerChar(c: char): char {
    if 'A' <= c <= 'Z' then (c as int + 32) as char else c
  }

  /** `s.lower()`: no ASCII capital is left, and every other character stays as it was. */
  function Lower(s: string): (r: string)
    ensures |r| == |s|
    ensures forall i :: 0 <= i < |r| ==> !('A' <= r[i] <= 'Z')
    ensures forall i :: 0 <= i < |s| && !('A' <= s[i] <= 'Z') ==> r[i] == s[i]
    ensures forall i :: 0 <= i < |s| && 'A' <= s[i] <= 'Z' ==> r[i] as int == s[i] as int + 32
  {
    seq(|s|, i requires 0 <= i < |s| => LowerChar(s[i]))
  }

  /** Lower-casing twice is lower-casing once. */
  lemma LowerIdempotent(s: string)
    ensures Lower(Lower(s)) == Lower(s)
  {
    assert forall i :: 0 <= i < |s| ==> Lower(Lower(s))[i] == Lower(s)[i];
  }

  /** `s.endswith(suffix)`: some tail of `s` is `suffix`. */
  predicate EndsWith(s: string, suffix: string)
    ensures EndsWith(s, suffix) <==> exists k :: 0 <= k <= |s| && s[k..] == suffix
  {
    assert forall k :: 0 <= k <= |s| && s[k..] == suffix ==> k == |s| - |suffix|;
    |suffix| <= |s| && s[|s| - |suffix|..] == suffix
  }

  // ---------------------------------------------------------------------------
  // Splitting on a separator (how a reader of a comma-separated file sees it)
  // ---------------------------------------------------------------------------

  /** `s.split(sep)`: the pieces between separators; always at least one piece. */
  function Split(s: string, sep: char): (parts: seq<string>)
    ensures |parts| >= 1
  {
    if s == [] then [""]
    else
      var rest := Split(s[1..], sep);
      if s[0] == sep then [""] + rest else [[s[0]] + rest[0]] + rest[1..]
  }

  /** Number of occurrences of `c` in `s`. */
  function Count(s: string, c: char): nat {
    if s == [] then 0 else (if s[0] == c then 1 else 0) + Count(s[1..], c)
  }

  lemma {:induction false} SplitWithoutSeparator(s: string, sep: char)
    requires sep !in s
    ensures Split(s, sep) == [s]
  {
    if s != [] {
      SplitWithoutSeparator(s[1..], sep);
      assert [s[0]] + s[1..] == s;
    }
  }

  /** A last piece free of the separator, after the separator, splits off as exactly that piece. */
  lemma {:induction false} SplitBeforePiece(a: string, sep: char, b: string)
    requires sep !in b
    ensures Split(a + [sep] + b, sep) == Split(a, sep) + [b]
  {
    if a == [] {
      SplitAfterPiece(a, sep, b);
      SplitWithoutSeparator(b, sep);
    } else {
      var s := a + [sep] + b;
      assert s[1..] == a[1..] + [sep] + b;
      SplitBeforePiece(a[1..], sep, b);
    }
  }

  /** A piece free of the separator, then the separator, splits off as exactly that piece. */
  lemma {:induction false} SplitAfterPiece(a: string, sep: char, b: string)
    requires sep !in a
    ensures Split(a + [sep] + b, sep) == [a] + Split(b, sep)
  {
    if a == [] {
      assert a + [sep] + b == [sep] + b;
      assert ([sep] + b)[1..] == b;
    } else {
      var s := a + [sep] + b;
      assert s[0] == a[0];
      assert s[1..] == a[1..] + [sep] + b;
      SplitAfterPiece(a[1..], sep, b);
      assert [a[0]] + a[1..] == a;
    }
  }

  /** Splitting yields one piece more than there are separators. */
  lemma {:induction false} SplitCount(s: string, sep: char)
    ensures |Split(s, sep)| == Count(s, sep) + 1
  {
    if s != [] {
      SplitCount(s[1..], sep);
    }
  }

  lemma {:induction false} CountAppend(a: string, b: string, c: char)
    ensures Count(a + b, c) == Count(a, c) + Count(b, c)
  {
    if a != [] {
      assert (a + b)[1..] == a[1..] + b;
      CountAppend(a[1..], b, c);
    } else {
      assert a + b == b;
    }
  }

  lemma {:induction false} CountPositive(s: string, c: char)
    ensures c in s <==> Count(s, c) > 0
  {
    if s != [] {
      CountPositive(s[1..], c);
      assert s == [s[0]] + s[1..];
    }
  }

  // ---------------------------------------------------------------------------
  // Decimal digits
  // ---------------------------------------------------------------------------

  predicate IsDigit(c: char) {
    '0' <= c <= '9'
  }

  predicate AllDigits(s: string) {
    forall i :: 0 <= i < |s| ==> IsDigit(s[i])
  }

  /** A character that is not a digit does not occur in a digit string. */
  lemma NonDigitAbsent(s: string, c: char)
    requires AllDigits(s) && !IsDigit(c)
    ensures c !in s
  {
    forall i | 0 <= i < |s| ensures s[i] != c {
      assert IsDigit(s[i]);
    }
  }

  function DigitChar(d: nat): char
    requires d < 10
  {
    ('0' as int + d) as char
  }

  function Pow10(k: nat): nat {
    if k == 0 then 1 else 10 * Pow10(k - 1)
  }

  /** `str(n)` for a non-negative integer: no leading zero except for 0 itself. */
  function DecimalDigits(n: nat): (r: string)
    ensures 1 <= |r| && AllDigits(r)
    ensures |r| > 1 ==> r[0] != '0'
  {
    if n < 10 then [DigitChar(n)] else DecimalDigits(n / 10) + [DigitChar(n % 10)]
  }

  /** The number a string of decimal digits denotes (leading zeros allowed). */
  function DigitsValue(s: string): nat
    requires AllDigits(s)
  {
    if s == [] then 0 else DigitsValue(s[..|s| - 1]) * 10 + (s[|s| - 1] as int - '0' as int)
  }

  /** Reading back the digits of `n` gives `n`. */
  lemma {:induction false} DigitsRoundTrip(n: nat)
    ensures DigitsValue(DecimalDigits(n)) == n
  {
    if n >= 10 {
      DigitsRoundTrip(n / 10);
      var s := DecimalDigits(n);
      assert s[..|s| - 1] == DecimalDigits(n / 10);
    }
  }

  /** `n` has at most `k + 1` digits exactly when it is below 10^(k+1). */
  lemma {:induction false} DigitsLength(n: nat, k: nat)
    ensures |DecimalDigits(n)| <= k + 1 <==> n < Pow10(k + 1)
  {
    if n >= 10 && k > 0 {
      DigitsLength(n / 10, k - 1);
      assert Pow10(k + 1) == 10 * Pow10(k);
    } else if n >= 10 {
      assert Pow10(1) == 10;
      assert |DecimalDigits(n)| == |DecimalDigits(n / 10)| + 1;
    } else {
      PowAtLeastTen(k);
    }
  }

  lemma {:induction false} PowAtLeastTen(k: nat)
    ensures Pow10(k + 1) >= 10
  {
    if k > 0 {
      PowAtLeastTen(k - 1);
    }
  }

  function Zeros(k: nat): (z: string)
    ensures |z| == k && AllDigits(z)
  {
    if k == 0 then "" else "0" + Zeros(k - 1)
  }

  /** Leading zeros do not change the value of a digit string. */
  lemma {:induction false} LeadingZerosIgnored(k: nat, s: string)
    requires AllDigits(s)
    ensures AllDigits(Zeros(k) + s) && DigitsValue(Zeros(k) + s) == DigitsValue(s)
  {
    if s == [] {
      ZerosValue(k);
      assert Zeros(k) + s == Zeros(k);
    } else {
      var t := Zeros(k) + s;
      assert t[..|t| - 1] == Zeros(k) + s[..|s| - 1];
      LeadingZerosIgnored(k, s[..|s| - 1]);
    }
  }

  lemma {:induction false} ZerosValue(k: nat)
    ensures DigitsValue(Zeros(k)) == 0
  {
    if k > 0 {
      var z := Zeros(k);
      assert z == Zeros(k - 1) + "0" by { ZerosShift(k - 1); }
      assert z[..|z| - 1] == Zeros(k - 1);
      ZerosValue(k - 1);
    }
  }

  lemma {:induction false} ZerosShift(k: nat)
    ensures "0" + Zeros(k) == Zeros(k) + "0"
  {
    if k > 0 {
      ZerosShift(k - 1);
    }
  }

  // ---------------------------------------------------------------------------
  // Thousands grouping (the ',' option of Python's format mini-language)
  // ---------------------------------------------------------------------------

  /** A ',' between every group of three digits, counted from the right. */
  function GroupThousands(d: string): (g: string)
    ensures |g| >= |d|
    ensures |d| <= 3 ==> g == d
  {
    if |d| <= 3 then d else GroupThousands(d[..|d| - 3]) + "," + d[|d| - 3..]
  }

  /** `s` with every occurrence of `c` deleted. */
  function Remove(s: string, c: char): (r: string)
    ensures c !in r
  {
    if s == [] then [] else (if s[0] == c then [] else [s[0]]) + Remove(s[1..], c)
  }

  lemma {:induction false} RemoveAppend(a: string, b: string, c: char)
    ensures Remove(a + b, c) == Remove(a, c) + Remove(b, c)
  {
    if a == [] {
      assert a + b == b;
    } else {
      assert (a + b)[1..] == a[1..] + b;
      RemoveAppend(a[1..], b, c);
    }
  }

  lemma {:induction false} RemoveAbsent(s: string, c: char)
    requires c !in s
    ensures Remove(s, c) == s
  {
    if s != [] {
      RemoveAbsent(s[1..], c);
      assert s == [s[0]] + s[1..];
    }
  }

  /** Deleting the separators undoes the grouping. */
  lemma {:induction false} UngroupThousands(d: string)
    requires ',' !in d
    ensures Remove(GroupThousands(d), ',') == d
  {
    if |d| <= 3 {
      RemoveAbsent(d, ',');
    } else {
      var init, tail := d[..|d| - 3], d[|d| - 3..];
      assert d == init + tail;
      assert ',' !in init && ',' !in tail;
      RemoveSeparatorBefore(GroupThousands(init), tail);
      UngroupThousands(init);
    }
  }

  lemma {:induction false} RemoveSeparatorBefore(g: string, tail: string)
    requires ',' !in tail
    ensures Remove(g + "," + tail, ',') == Remove(g, ',') + tail
  {
    var comma: string := ",";
    assert Remove(comma, ',') == [] by {
      assert comma[1..] == [];
    }
    assert Remove(g + comma, ',') == Remove(g, ',') by {
      RemoveAppend(g, comma, ',');
    }
    RemoveAppend(g + comma, tail, ',');
    RemoveAbsent(tail, ',');
  }

  /**
   * Read between the separators, the grouped digits fall into a first group
   * of one to three digits followed only by groups of exactly three.
   */
  lemma {:induction false} GroupThousandsGroups(d: string)
    requires d != [] && ',' !in d
    ensures var groups := Split(GroupThousands(d), ',');
      1 <= |groups[0]| <= 3 && forall k :: 1 <= k < |groups| ==> |groups[k]| == 3
  {
    if |d| <= 3 {
      SplitWithoutSeparator(d, ',');
    } else {
      var init, tail := d[..|d| - 3], d[|d| - 3..];
      assert ',' !in tail by {
        assert forall i :: 0 <= i < |tail| ==> tail[i] == d[|d| - 3 + i];
      }
      assert ',' !in init by {
        assert forall i :: 0 <= i < |init| ==> init[i] == d[i];
      }
      GroupThousandsGroups(init);
      SplitBeforePiece(GroupThousands(init), ',', tail);
    }
  }

  /** Grouping adds only separators, and adds one exactly when there are more than three digits. */
  lemma {:induction false} GroupThousandsChars(d: string, c: char)
    ensures c in GroupThousands(d) <==> c in d || (c == ',' && |d| > 3)
  {
    if |d| > 3 {
      var init, tail := d[..|d| - 3], d[|d| - 3..];
      GroupThousandsChars(init, c);
      assert d == init + tail;
      assert c in GroupThousands(d) <==> c in GroupThousands(init) || c == ',' || c in tail;
      assert c in d <==> c in init || c in tail;
    }
  }

  // ---------------------------------------------------------------------------
  // Code-point order on strings and the sort Python applies with list.sort()
  // ---------------------------------------------------------------------------

  /** `a <= b` on Python `str`: lexicographic by code point, a proper prefix first. */
  predicate AtMost(a: string, b: string) {
    if |a| == 0 then true
    else if |b| == 0 then false
    else if a[0] != b[0] then a[0] < b[0]
    else AtMost(a[1..], b[1..])
  }

  lemma {:induction false} AtMostTotal(a: string, b: string)
    ensures AtMost(a, b) || AtMost(b, a)
  {
    if |a| > 0 && |b| > 0 && a[0] == b[0] {
      AtMostTotal(a[1..], b[1..]);
    }
  }

  lemma {:induction false} AtMostTransitive(a: string, b: string, c: string)
    requires AtMost(a, b) && AtMost(b, c)
    ensures AtMost(a, c)
  {
    if |a| > 0 && |b| > 0 && |c| > 0 && a[0] == b[0] && b[0] == c[0] {
      AtMostTransitive(a[1..], b[1..], c[1..]);
    }
  }

  lemma {:induction false} AtMostAntisymmetric(a: string, b: string)
    requires AtMost(a, b) && AtMost(b, a)
    ensures a == b
  {
    if |a| > 0 && |b| > 0 {
      AtMostAntisymmetric(a[1..], b[1..]);
      assert a == [a[0]] + a[1..] && b == [b[0]] + b[1..];
    }
  }

  predicate Sorted(s: seq<string>) {
    forall i, j :: 0 <= i < j < |s| ==> AtMost(s[i], s[j])
  }

  function Insert(x: string, s: seq<string>): seq<string> {
    if s == [] then [x]
    else if AtMost(x, s[0]) then [x] + s
    else [s[0]] + Insert(x, s[1..])
  }

  /**
   * The result of `list.sort()` on a list of `str`: sorted, and holding the
   * same elements, each as often as before.
   */
  function SortStrings(s: seq<string>): (r: seq<string>)
    ensures Sorted(r)
    ensures multiset(r) == multiset(s)
  {
    if s == [] then []
    else
      var init, last := s[..|s| - 1], s[|s| - 1];
      var sorted := SortStrings(init);
      InsertSorted(last, sorted);
      InsertPermutes(last, sorted);
      assert s == init + [last];
      Insert(last, sorted)
  }

  lemma {:induction false} InsertPermutes(x: string, s: seq<string>)
    ensures multiset(Insert(x, s)) == multiset(s) + multiset{x}
  {
    if s != [] && !AtMost(x, s[0]) {
      InsertPermutes(x, s[1..]);
      assert s == [s[0]] + s[1..];
    }
  }

  lemma {:induction false} InsertSorted(x: string, s: seq<string>)
    requires Sorted(s)
    ensures Sorted(Insert(x, s))
  {
    if s != [] && AtMost(x, s[0]) {
      forall k | 0 <= k < |s| ensures AtMost(x, s[k]) {
        if k > 0 {
          AtMostTransitive(x, s[0], s[k]);
        }
      }
      ConsSorted(x, s);
    } else if s != [] {
      AtMostTotal(x, s[0]);
      InsertSorted(x, s[1..]);
      InsertAbove(x, s[1..], s[0]);
      ConsSorted(s[0], Insert(x, s[1..]));
    }
  }

  /** A sorted list stays sorted under a new head that is at most each of its elements. */
  lemma ConsSorted(h: string, t: seq<string>)
    requires Sorted(t) && forall k :: 0 <= k < |t| ==> AtMost(h, t[k])
    ensures Sorted([h] + t)
  {
    var r := [h] + t;
    forall i, j | 0 <= i < j < |r| ensures AtMost(r[i], r[j]) {
      assert r[j] == t[j - 1];
      if i > 0 {
        assert r[i] == t[i - 1];
      }
    }
  }

  /** Inserting into a list keeps a lower bound shared by the list and the new element. */
  lemma {:induction false} InsertAbove(x: string, s: seq<string>, lo: string)
    requires AtMost(lo, x) && forall k :: 0 <= k < |s| ==> AtMost(lo, s[k])
    ensures forall k :: 0 <= k < |Insert(x, s)| ==> AtMost(lo, Insert(x, s)[k])
  {
    if s != [] && !AtMost(x, s[0]) {
      InsertAbove(x, s[1..], lo);
      var r := Insert(x, s);
      assert r == [s[0]] + Insert(x, s[1..]);
      forall k | 0 <= k < |r| ensures AtMost(lo, r[k]) {
        if k > 0 {
          assert r[k] == Insert(x, s[1..])[k - 1];
        }
      }
    }
  }

  /** The first element of a sorted list is at most every element of it. */
  lemma SortedHeadLeast(a: seq<string>, x: string)
    requires Sorted(a) && x in multiset(a)
    ensures AtMost(a[0], x)
  {
    var j :| 0 <= j < |a| && a[j] == x;
    if j == 0 {
      AtMostTotal(x, x);
    }
  }

  lemma SameTails(a: seq<string>, b: seq<string>)
    requires a != [] && b != [] && a[0] == b[0] && multiset(a) == multiset(b)
    ensures multiset(a[1..]) == multiset(b[1..])
  {
    assert a == [a[0]] + a[1..] && b == [b[0]] + b[1..];
    assert multiset(a) == multiset{a[0]} + multiset(a[1..]);
    assert multiset(b) == multiset{b[0]} + multiset(b[1..]);
    calc {
      multiset(a[1..]);
      multiset(a) - multiset{a[0]};
      multiset(b) - multiset{b[0]};
      multiset(b[1..]);
    }
  }

  lemma SortedTail(a: seq<string>)
    requires Sorted(a) && a != []
    ensures Sorted(a[1..])
  {
  }

  /**
   * Two sorted arrangements of the same strings are equal, so SortStrings is the
   * result of any correct sort (in particular the one Python runs).
   */
  lemma {:induction false} SortedArrangementUnique(a: seq<string>, b: seq<string>)
    requires Sorted(a) && Sorted(b) && multiset(a) == multiset(b)
    ensures a == b
  {
    if a != [] {
      assert |b| == |a| by { assert |multiset(a)| == |multiset(b)|; }
      assert a[0] in multiset(a);
      assert b[0] in multiset(b);
      SortedHeadLeast(b, a[0]);
      SortedHeadLeast(a, b[0]);
      AtMostAntisymmetric(a[0], b[0]);
      SameTails(a, b);
      SortedTail(a);
      SortedTail(b);
      SortedArrangementUnique(a[1..], b[1..]);
      assert a == [a[0]] + a[1..] && b == [b[0]] + b[1..];
    }
  }
}
