/** Path text shared by the panels and the controller: a remote directory
    joined with a name, the parent of a remote path, and the parts of a
    file name as Python's `pathlib` reads them with `/` as the separator. */
module Paths {
  import opened Text

  /** `base.rstrip('/') + "/" + name`: trailing slashes of the directory
      are dropped, so the root `/` gives `/name`. */
  function ChildPath(basePath: string, name: string): (p: string)
    ensures StartsWith(p, RStripChar(basePath, '/') + "/")
    ensures p[|RStripChar(basePath, '/')| + 1..] == name
  {
    var p := RStripChar(basePath, '/') + "/" + name;
    assert p[..|RStripChar(basePath, '/') + "/"|] == RStripChar(basePath, '/') + "/";
    p
  }

  /** `"/".join(p.rstrip("/").split("/")[:-1])`: everything before the last
      component, with no fallback for the root. */
  function DirectoryPart(p: string): string {
    var parts := Split(RStripChar(p, '/'), '/');
    Join(parts[..|parts| - 1], '/')
  }

  /** `PurePosixPath(p).name`: the last component once trailing slashes are
      dropped; empty for the root. */
  function BaseName(p: string): (r: string)
    ensures '/' !in r
  {
    var parts := Split(RStripChar(p, '/'), '/');
    parts[|parts| - 1]
  }

  /** The directory part and the base name put back together give the path
      without its trailing slashes. */
  lemma DirectoryAndBase(p: string)
    requires '/' in RStripChar(p, '/')
    ensures DirectoryPart(p) + "/" + BaseName(p) == RStripChar(p, '/')
  {
    var s := RStripChar(p, '/');
    var parts := Split(s, '/');
    JoinSplit(s, '/');
    SplitNoSepConverse(s);
    JoinLast(parts);
  }

  /** A string containing the separator splits into at least two pieces. */
  lemma SplitNoSepConverse(s: string)
    requires '/' in s
    ensures |Split(s, '/')| >= 2
  {
    var i :| 0 <= i < |s| && s[i] == '/';
    assert s == s[..i] + ['/'] + s[i + 1..];
    SplitAround(s[..i], s[i + 1..], '/');
  }

  /** Joining all pieces is joining all but the last, the separator, and
      the last. */
  lemma {:induction false} JoinLast(parts: seq<string>)
    requires |parts| >= 2
    ensures Join(parts, '/') == Join(parts[..|parts| - 1], '/') + "/" + parts[|parts| - 1]
  {
    if |parts| > 2 {
      JoinLast(parts[1..]);
      assert parts[1..][..|parts| - 2] == parts[..|parts| - 1][1..];
    }
  }

  /** The directory part and base name of a child path are the directory
      (without trailing slashes) and the name. */
  lemma ChildParts(basePath: string, name: string)
    requires name != [] && '/' !in name
    ensures DirectoryPart(ChildPath(basePath, name)) == RStripChar(basePath, '/')
    ensures BaseName(ChildPath(basePath, name)) == name
  {
    var d := RStripChar(basePath, '/');
    var p := ChildPath(basePath, name);
    assert p == d + ['/'] + name;
    RStripCharNoOp(p, '/');
    SplitAround(d, name, '/');
    SplitNoSep(name, '/');
    var parts := Split(p, '/');
    assert parts == Split(d, '/') + [name];
    assert parts[..|parts| - 1] == Split(d, '/');
    JoinSplit(d, '/');
  }

  // ---------------------------------------------------------------------
  // Stem and suffix

  /** The position of the last '.' in `name`, or -1. */
  function LastDot(name: string): (i: int)
    ensures -1 <= i < |name|
    ensures i >= 0 ==> name[i] == '.'
    ensures forall k :: i < k < |name| ==> name[k] != '.'
  {
    if |name| == 0 then -1
    else if name[|name| - 1] == '.' then |name| - 1
    else LastDot(name[..|name| - 1])
  }

  /** `pathlib` sees a suffix when the last dot is neither the first nor the
      last character of the name. */
  predicate HasSuffix(name: string) {
    0 < LastDot(name) < |name| - 1
  }

  /** `PurePath(name).suffix` */
  function Suffix(name: string): string {
    if HasSuffix(name) then name[LastDot(name)..] else ""
  }

  /** `PurePath(name).stem` */
  function Stem(name: string): string {
    if HasSuffix(name) then name[..LastDot(name)] else name
  }

  /** The stem and the suffix split the name: the suffix is empty or is a
      dot followed by at least one character and no further dot, and a name
      with a suffix has a non-empty stem. A name whose only dot leads it
      (a hidden file) or ends it has no suffix. */
  lemma StemSuffix(name: string)
    ensures Stem(name) + Suffix(name) == name
    ensures Suffix(name) == "" || (|Suffix(name)| >= 2 && Suffix(name)[0] == '.' && '.' !in Suffix(name)[1..])
    ensures Suffix(name) != "" ==> Stem(name) != ""
    ensures (|name| > 0 && name[0] == '.' && '.' !in name[1..]) ==> Suffix(name) == ""
    ensures (|name| > 0 && name[|name| - 1] == '.') ==> Suffix(name) == ""
  {
    if HasSuffix(name) {
      assert name[..LastDot(name)] + name[LastDot(name)..] == name;
      forall k | 0 <= k < |Suffix(name)| - 1 ensures Suffix(name)[1..][k] != '.' {
        assert Suffix(name)[1..][k] == name[LastDot(name) + 1 + k];
      }
    }
    if LastDot(name) > 0 {
      assert name[1..][LastDot(name) - 1] == name[LastDot(name)];
      assert '.' in name[1..];
    }
  }
}
