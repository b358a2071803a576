/** The two POSIX path helpers the uploader relies on: `os.path.basename` and `os.path.join`. */
module Paths {

  /** Everything after the last '/' of `p` (all of `p` when it has no '/'). */
  function Basename(p: string): (r: string)
    ensures '/' !in r
    ensures |r| <= |p|
    decreases |p|
  {
    if p == [] || p[|p| - 1] == '/' then [] else Basename(p[..|p| - 1]) + [p[|p| - 1]]
  }

  /** The basename is the longest suffix of the path without a '/': it ends the path, and it is
      either the whole path or preceded by a '/'. */
  lemma {:induction false} BasenameIsLastComponent(p: string)
    ensures p[|p| - |Basename(p)|..] == Basename(p)
    ensures |Basename(p)| < |p| ==> p[|p| - |Basename(p)| - 1] == '/'
    decreases |p|
  {
    if p != [] && p[|p| - 1] != '/' {
      var init := p[..|p| - 1];
      BasenameIsLastComponent(init);
      assert p[|p| - |Basename(p)|..] == init[|init| - |Basename(init)|..] + [p[|p| - 1]];
    }
  }

  /** A suffix without '/' that follows a '/' (or starts the path) is the basename. */
  lemma {:induction false} BasenameAfterSeparator(dir: string, name: string)
    requires dir == [] || dir[|dir| - 1] == '/'
    ensures '/' !in name ==> Basename(dir + name) == name
    decreases |name|
  {
    if '/' in name {
    } else if name == [] {
      assert dir + name == dir;
    } else {
      var init := name[..|name| - 1];
      assert (dir + name)[..|dir + name| - 1] == dir + init;
      BasenameAfterSeparator(dir, init);
      assert name == init + [name[|name| - 1]];
    }
  }

  /** `os.path.join(a, b)` for two components: an absolute `b` replaces `a`; otherwise `b` is
      appended, with a '/' in between unless `a` is empty or already ends in one. */
  function Join(a: string, b: string): (r: string)
    ensures b != [] && b[0] == '/' ==> r == b
    ensures (b == [] || b[0] != '/') ==> a <= r
    ensures '/' !in b ==> Basename(r) == b
  {
    if b != [] && b[0] == '/' then b
    else if a == [] || a[|a| - 1] == '/' then
      BasenameAfterSeparator(a, b);
      a + b
    else
      BasenameAfterSeparator(a + "/", b);
      a + "/" + b
  }
}
