/**
 * The three `os.path` operations the scripts use on POSIX paths:
 * `basename`, the extension part of `splitext`, and `join` of two parts.
 */
module Paths {

  /** `os.path.basename(p)`: everything after the last '/'. */
  function Basename(p: string): (b: string)
    ensures '/' !in b
    ensures |b| <= |p| && b == p[|p| - |b|..]
    ensures |b| < |p| ==> p[|p| - |b| - 1] == '/'
  {
    if p == [] then ""
    else if p[|p| - 1] == '/' then ""
    else Basename(p[..|p| - 1]) + [p[|p| - 1]]
  }

  /** Index of the last '.' in `s`, or -1 when there is none. */
  function LastDot(s: string): (k: int)
    ensures -1 <= k < |s|
  {
    if s == [] then -1
    else if s[|s| - 1] == '.' then |s| - 1
    else LastDot(s[..|s| - 1])
  }

  /** The index found is a '.', with no '.' after it; -1 means there is no '.' at all. */
  lemma {:induction false} LastDotSpec(s: string)
    ensures var k := LastDot(s);
      (k >= 0 ==> s[k] == '.' && '.' !in s[k + 1..]) && (k == -1 ==> '.' !in s)
  {
    if s != [] && s[|s| - 1] != '.' {
      var init := s[..|s| - 1];
      LastDotSpec(init);
      var k := LastDot(init);
      if k >= 0 {
        assert s[k + 1..] == init[k + 1..] + [s[|s| - 1]];
      } else {
        assert s == init + [s[|s| - 1]];
      }
    }
  }

  /**
   * `os.path.splitext(name)[1]` for a file name without a directory part:
   * from the last '.' on, unless every character before that dot is itself a
   * dot (a leading-dot name such as ".png" has no extension).
   */
  function Extension(name: string): (ext: string)
  {
    var d := LastDot(name);
    if d > 0 && !AllDots(name[..d]) then name[d..] else ""
  }

  /**
   * A name has an extension exactly when some '.' comes after a character
   * that is not a '.'; the extension is then the tail from the last '.', which
   * is its only '.'.
   */
  lemma ExtensionSpec(name: string)
    ensures Extension(name) != "" <==>
      exists j, i :: 0 <= j < i < |name| && name[i] == '.' && name[j] != '.'
    ensures Extension(name) != "" ==> Extension(name) == name[LastDot(name)..]
    ensures var ext := Extension(name);
      ext == "" || (ext[0] == '.' && '.' !in ext[1..] && |ext| < |name| && ext == name[|name| - |ext|..])
  {
    LastDotSpec(name);
    var d := LastDot(name);
    if d > 0 {
      assert name[d..][1..] == name[d + 1..];
      AllDotsEvery(name[..d]);
    }
    if exists j, i :: 0 <= j < i < |name| && name[i] == '.' && name[j] != '.' {
      var j, i :| 0 <= j < i < |name| && name[i] == '.' && name[j] != '.';
      assert i <= d;
      assert name[..d][j] != '.';
    }
  }

  /** Every character is a '.'. */
  predicate AllDots(s: string) {
    s == [] || (s[0] == '.' && AllDots(s[1..]))
  }

  lemma {:induction false} AllDotsEvery(s: string)
    ensures AllDots(s) <==> forall k :: 0 <= k < |s| ==> s[k] == '.'
  {
    if s != [] {
      AllDotsEvery(s[1..]);
      assert forall k :: 1 <= k < |s| ==> s[k] == s[1..][k - 1];
    }
  }

  /** `os.path.join(a, b)`: an absolute `b` replaces `a`; otherwise one '/' between them. */
  function Join(a: string, b: string): (p: string)
    ensures b != [] && b[0] == '/' ==> p == b
    ensures (b == [] || b[0] != '/') ==> EndsWithPart(p, b)
    ensures (b == [] || b[0] != '/') ==>
      |p| == |a| + |b| + (if a == [] || a[|a| - 1] == '/' then 0 else 1) && p[..|a|] == a
  {
    if b != [] && b[0] == '/' then b
    else if a == [] || a[|a| - 1] == '/' then a + b
    else a + "/" + b
  }

  /** `b` is the tail of `p`, preceded in `p` by a '/' unless `b` is all of it. */
  predicate EndsWithPart(p: string, b: string) {
    |b| <= |p| && p[|p| - |b|..] == b && (|b| < |p| ==> p[|p| - |b| - 1] == '/')
  }

  /** Joining a name without '/' to a directory gives a path whose basename is that name. */
  lemma {:induction false} BasenameOfJoin(dir: string, name: string)
    requires '/' !in name
    ensures Basename(Join(dir, name)) == name
  {
    var p := Join(dir, name);
    BasenameOfSuffix(p, name);
  }

  lemma {:induction false} BasenameOfSuffix(p: string, name: string)
    requires '/' !in name && EndsWithPart(p, name)
    ensures Basename(p) == name
  {
    if name != [] {
      var q, init, last := p[..|p| - 1], name[..|name| - 1], name[|name| - 1];
      assert name == init + [last];
      assert last == p[|p| - 1] && last != '/';
      assert q[|q| - |init|..] == init;
      BasenameOfSuffix(q, init);
      assert Basename(p) == Basename(q) + [last];
    } else if p != [] {
      assert p[|p| - 1] == '/';
    }
  }
}
