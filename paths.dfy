/**
 * The three POSIX path operations the page renderer uses to name image
 * files: `os.path.basename`, `os.path.splitext` and `os.path.join`
 * (POSIX flavour: '/' separates, '.' starts an extension).
 */
module Paths {

  /** `s.rfind(c)`: the last index of `c` in `s`, or -1. */
  function LastIndexOf(s: string, c: char): (i: int)
    ensures -1 <= i < |s|
    ensures 0 <= i ==> s[i] == c
    ensures forall k :: i < k < |s| ==> s[k] != c
    decreases |s|
  {
    if s == [] then -1
    else if s[|s| - 1] == c then |s| - 1
    else LastIndexOf(s[..|s| - 1], c)
  }

  /** The last occurrence is the only one with none after it. */
  lemma {:induction false} LastIndexOfAt(s: string, c: char, p: nat)
    requires p < |s| && s[p] == c
    requires forall k :: p < k < |s| ==> s[k] != c
    ensures LastIndexOf(s, c) == p
    decreases |s|
  {
    if p < |s| - 1 {
      var init := s[..|s| - 1];
      assert forall k :: p < k < |init| ==> init[k] == s[k];
      LastIndexOfAt(init, c, p);
    }
  }

  /** `os.path.basename(p)`: everything after the last '/'. */
  function Basename(p: string): (b: string)
    ensures '/' !in b
    ensures |b| <= |p| && b == p[|p| - |b|..]
    ensures |b| == |p| || p[|p| - |b| - 1] == '/'
  {
    p[LastIndexOf(p, '/') + 1..]
  }

  /**
   * The root part of `os.path.splitext(p)`. The extension starts at the last
   * '.', provided that dot lies in the last path component and is preceded
   * there by some character other than '.'; otherwise there is no extension
   * and the root is `p` itself (".bashrc" has none, "a.b.pdf" has ".pdf").
   */
  function SplitExtRoot(p: string): (root: string)
    ensures root <= p
    ensures root != p ==>
      |root| < |p| && p[|root|] == '.' &&
      (forall k :: |root| < k < |p| ==> p[k] != '.' && p[k] != '/') &&
      exists k :: LastIndexOf(p, '/') < k < |root| && p[k] != '.'
    ensures root == p ==>
      forall d, k :: LastIndexOf(p, '/') < k < d < |p| && p[d] == '.' ==> p[k] == '.'
  {
    var sep := LastIndexOf(p, '/');
    var dot := LastIndexOf(p, '.');
    if sep < dot && exists k :: sep + 1 <= k < dot && p[k] != '.' then p[..dot] else p
  }

  /**
   * `os.path.splitext(os.path.basename(p))[0]`: the file name without its
   * extension. The extension, when there is one, starts at the name's last
   * '.', and some character before that dot is not a '.'.
   */
  function Stem(p: string): (s: string)
    ensures '/' !in s
    ensures s <= Basename(p)
    ensures var b := Basename(p); s != b ==>
      |s| < |b| && b[|s|] == '.' &&
      (forall k :: |s| < k < |b| ==> b[k] != '.') &&
      exists k :: 0 <= k < |s| && b[k] != '.'
    ensures var b := Basename(p); s == b ==>
      forall d, k :: 0 <= k < d < |b| && b[d] == '.' ==> b[k] == '.'
  {
    var b := Basename(p);
    assert LastIndexOf(b, '/') == -1;
    var r := SplitExtRoot(b);
    assert forall k :: 0 <= k < |r| ==> r[k] == b[k];
    r
  }

  /**
   * `os.path.join(a, b)` for two components: an absolute `b` replaces `a`;
   * otherwise `b` follows `a`, with one '/' inserted unless `a` is empty or
   * already ends in one.
   */
  function Join(a: string, b: string): (r: string)
    ensures |b| <= |r| && r[|r| - |b|..] == b
    ensures |b| > 0 && b[0] == '/' ==> r == b
    ensures !(|b| > 0 && b[0] == '/') ==>
      a <= r && |a| + |b| <= |r| <= |a| + |b| + 1 &&
      (a == [] ==> r == b) &&
      (a != [] ==> r[|r| - |b| - 1] == '/') &&
      (a != [] && a[|a| - 1] == '/' ==> |r| == |a| + |b|)
  {
    if |b| > 0 && b[0] == '/' then b
    else if a == [] || a[|a| - 1] == '/' then a + b
    else a + "/" + b
  }

  lemma PrefixCancel(p: string, x: string, y: string)
    requires p + x == p + y
    ensures x == y
  {
    assert x == (p + x)[|p|..];
    assert y == (p + y)[|p|..];
  }

  lemma SuffixCancel(x: string, y: string, q: string)
    requires x + q == y + q
    ensures x == y
  {
    assert x == (x + q)[..|x|];
    assert y == (y + q)[..|y|];
  }

  /** Joining a relative name onto one directory never merges two names. */
  lemma JoinInjective(dir: string, x: string, y: string)
    requires |x| > 0 && x[0] != '/'
    requires |y| > 0 && y[0] != '/'
    ensures Join(dir, x) == Join(dir, y) <==> x == y
  {
    if Join(dir, x) == Join(dir, y) {
      if dir == [] || dir[|dir| - 1] == '/' {
        PrefixCancel(dir, x, y);
      } else {
        assert dir + "/" + x == (dir + "/") + x;
        assert dir + "/" + y == (dir + "/") + y;
        PrefixCancel(dir + "/", x, y);
      }
    }
  }

  /** A name without '/' joined onto a directory is the base name of the result. */
  lemma BasenameOfJoin(dir: string, name: string)
    requires '/' !in name
    ensures Basename(Join(dir, name)) == name
  {
    var r := Join(dir, name);
    var pre := r[..|r| - |name|];
    assert r == pre + name;
    if pre == [] {
      assert r == name;
      assert LastIndexOf(r, '/') == -1;
    } else {
      assert pre[|pre| - 1] == '/';
      forall k | |pre| - 1 < k < |r| ensures r[k] != '/' {
        assert r[k] == name[k - |pre|];
      }
      LastIndexOfAt(r, '/', |pre| - 1);
    }
  }
}
