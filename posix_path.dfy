/**
 * The part of Python's `os.path` (POSIX flavour) that the tool relies on:
 * `str.rfind` for one character and `os.path.splitext`.
 */
module PosixPath {

  /** Index of the last occurrence of `c` in `s`, or -1 when there is none (`s.rfind(c)`). */
  function RFind(s: string, c: char): (r: int)
    ensures -1 <= r < |s|
    ensures r >= 0 ==> s[r] == c
    ensures forall j :: r < j < |s| ==> s[j] != c
  {
    if s == [] then -1
    else if s[|s| - 1] == c then |s| - 1
    else RFind(s[..|s| - 1], c)
  }

  /** Some character of `s` is not a '.'. */
  predicate HasNonDot(s: string) {
    exists i :: 0 <= i < |s| && s[i] != '.'
  }

  /**
   * `root + ext` is a split of a path at its extension: `ext` is one '.' followed by
   * characters that are neither '.' nor '/', and the last path component of `root`
   * is not made of dots only (so ".bashrc" has no extension).
   */
  ghost predicate IsExtensionSplit(root: string, ext: string) {
    && |ext| > 0
    && ext[0] == '.'
    && (forall i :: 1 <= i < |ext| ==> ext[i] != '.' && ext[i] != '/')
    && exists k :: 0 <= k < |root| && root[k] != '.' && forall j :: k <= j < |root| ==> root[j] != '/'
  }

  /**
   * `os.path.splitext(p)`: split before the last '.' when it lies in the last path
   * component and is preceded there by some character other than '.'; otherwise
   * the extension is empty.
   */
  function SplitExt(p: string): (r: (string, string))
    ensures r.0 + r.1 == p
  {
    var sep := RFind(p, '/');
    var dot := RFind(p, '.');
    if dot > sep && HasNonDot(p[sep + 1..dot]) then (p[..dot], p[dot..]) else (p, [])
  }

  /** Whatever SplitExt splits off is an extension in the sense of IsExtensionSplit. */
  lemma SplitExtSound(p: string)
    ensures SplitExt(p).1 != [] ==> IsExtensionSplit(SplitExt(p).0, SplitExt(p).1)
  {
    var sep := RFind(p, '/');
    var dot := RFind(p, '.');
    if dot > sep && HasNonDot(p[sep + 1..dot]) {
      var root, ext, name := p[..dot], p[dot..], p[sep + 1..dot];
      assert ext[0] == p[dot] == '.';
      forall i | 1 <= i < |ext| ensures ext[i] != '.' && ext[i] != '/' {
        assert ext[i] == p[dot + i];
      }
      var i :| 0 <= i < |name| && name[i] != '.';
      var k := sep + 1 + i;
      assert root[k] == name[i];
      forall j | k <= j < |root| ensures root[j] != '/' {
        assert root[j] == p[j];
      }
      assert SplitExt(p) == (root, ext);
    }
  }

  /**
   * A path splits at its extension in at most one place, and SplitExt finds that place
   * whenever it exists.
   */
  lemma SplitExtAt(p: string, n: nat)
    requires n <= |p| && IsExtensionSplit(p[..n], p[n..])
    ensures SplitExt(p) == (p[..n], p[n..])
  {
    var root, ext := p[..n], p[n..];
    var sep := RFind(p, '/');
    var dot := RFind(p, '.');
    assert p[n] == ext[0] == '.';
    forall j | n < j < |p| ensures p[j] != '.' && p[j] != '/' {
      assert p[j] == ext[j - n];
    }
    assert dot == n;
    var k :| 0 <= k < |root| && root[k] != '.' && forall j :: k <= j < |root| ==> root[j] != '/';
    forall j | k <= j < |p| ensures p[j] != '/' {
      if j < n {
        assert p[j] == root[j];
      }
    }
    assert sep < k;
    var name := p[sep + 1..dot];
    assert name[k - sep - 1] == root[k];
  }

  /** SplitExt leaves the extension empty exactly when the path has none. */
  lemma SplitExtComplete(p: string)
    ensures SplitExt(p).1 == [] <==> forall n :: 0 <= n <= |p| ==> !IsExtensionSplit(p[..n], p[n..])
  {
    if SplitExt(p).1 == [] {
      forall n | 0 <= n <= |p| ensures !IsExtensionSplit(p[..n], p[n..]) {
        if IsExtensionSplit(p[..n], p[n..]) {
          SplitExtAt(p, n);
        }
      }
    } else {
      SplitExtSound(p);
      var n := |SplitExt(p).0|;
      assert p[..n] == SplitExt(p).0 && p[n..] == SplitExt(p).1;
    }
  }
}
