/** The parts of Node's POSIX `path` module the scripts use: `basename`
    (with and without a suffix) and `join`, the latter without normalisation. */
module JsPath {
  import opened Text

  /** Number of '/' characters at the end of `s`. */
  function TrailingSlashes(s: string): (k: nat)
    ensures k <= |s|
    ensures forall i :: |s| - k <= i < |s| ==> s[i] == '/'
    ensures k < |s| ==> s[|s| - 1 - k] != '/'
  {
    if |s| > 0 && s[|s| - 1] == '/' then 1 + TrailingSlashes(s[..|s| - 1]) else 0
  }

  /** Index of the last '/' in `s`, or -1. */
  function LastSlash(s: string): (r: int)
    ensures -1 <= r < |s|
    ensures r >= 0 ==> s[r] == '/'
    ensures forall i :: r < i < |s| ==> s[i] != '/'
  {
    if |s| == 0 then -1
    else if s[|s| - 1] == '/' then |s| - 1
    else LastSlash(s[..|s| - 1])
  }

  /** `path.basename(p)`: the last segment of `p`, trailing slashes ignored.
      With `e` the end of `p` once its trailing slashes are dropped, `r` is
      the slash-free text that ends at `e` and starts at the beginning of `p`
      or just after a '/'. */
  function Basename(p: string): (r: string)
    ensures '/' !in r
    ensures |r| <= |p|
    ensures var e := |p| - TrailingSlashes(p);
      |r| <= e && p[e - |r|..e] == r && (|r| == e || p[e - |r| - 1] == '/')
  {
    var e := |p| - TrailingSlashes(p);
    var head := p[..e];
    var r := head[LastSlash(head) + 1..];
    assert forall i :: 0 <= i < |r| ==> r[i] == head[LastSlash(head) + 1 + i];
    r
  }

  /** A path without any '/' is its own base name. */
  lemma BasenameOfName(p: string)
    requires '/' !in p
    ensures Basename(p) == p
  {
    assert TrailingSlashes(p) == 0 by {
      if |p| > 0 { assert p[|p| - 1] != '/'; }
    }
    assert p[..|p|] == p;
  }

  /** `path.basename(p, ext)`: the base name with the suffix `ext` removed,
      except when the base name is `ext` itself; a path equal to `ext`
      gives the empty string. */
  function BasenameExt(p: string, ext: string): (r: string)
    ensures |r| <= |p|
    ensures '/' !in r
  {
    if p == ext then ""
    else
      var b := Basename(p);
      if |ext| > 0 && EndsWith(b, ext) && b != ext then b[..|b| - |ext|] else b
  }

  /** `path.join(dir, name)`, taken as plain concatenation with one separator. */
  function Join(dir: string, name: string): string {
    dir + "/" + name
  }

  /** A directory-entry name (no '/') ending in `ext` loses exactly that
      suffix, and one equal to `ext` becomes empty. */
  lemma BasenameExtOfName(p: string, ext: string)
    requires '/' !in p
    requires |ext| > 0 && EndsWith(p, ext)
    ensures BasenameExt(p, ext) == p[..|p| - |ext|]
  {
    if p == ext {
      assert p[..|p| - |ext|] == "";
    } else {
      BasenameOfName(p);
      var b := Basename(p);
      assert b == p;
      assert EndsWith(b, ext) && b != ext;
    }
  }
}
