/**
 * Filesystem paths as sequences of name components, with the operations the
 * archiver applies to them: `File.getName`, `Path.startsWith`,
 * `Path.relativize` and `Path.toString` of a relative path.
 */
module Paths {

  type Component = string

  /** An absolute path, root first: `/data/sub/a.txt` is ["data", "sub", "a.txt"]. */
  type Path = seq<Component>

  /** A component of a canonical (real) path: no separator, and neither empty, `.` nor `..`. */
  predicate ValidComponent(c: string)
  {
    c != "" && c != "." && c != ".." && '/' !in c
  }

  predicate ValidPath(p: Path)
  {
    forall i :: 0 <= i < |p| ==> ValidComponent(p[i])
  }

  /** `Path.startsWith`: a component-wise prefix, so `/data2` does not start with `/data`. */
  predicate StartsWith(p: Path, prefix: Path)
    // `p` is `prefix` followed by further components.
    ensures StartsWith(p, prefix) <==> exists rest :: p == prefix + rest
  {
    assert |prefix| <= |p| && p[..|prefix|] == prefix ==> p == prefix + p[|prefix|..];
    |prefix| <= |p| && p[..|prefix|] == prefix
  }

  /** `File.getName`: the last component, or "" for the filesystem root. */
  function Last(p: Path): (name: string)
    ensures p == [] ==> name == ""
    // Every other path is its parent's path followed by this name.
    ensures p != [] ==> p == p[..|p| - 1] + [name]
  {
    if p == [] then "" else p[|p| - 1]
  }

  /** The components of a relative path written with `/` between them (`Path.toString`). */
  function Join(p: Path): (s: string)
    // The first component opens the string.
    ensures p != [] ==> p[0] <= s
    // Components of a canonical path are never empty, so only the empty path gives "".
    ensures ValidPath(p) ==> (s == "" <==> p == [])
  {
    if |p| == 0 then ""
    else if |p| == 1 then p[0]
    else
      assert ValidPath(p) ==> ValidPath(p[1..]) && p[0] != "";
      p[0] + "/" + Join(p[1..])
  }

  /** The string of an absolute path (`File.getAbsolutePath`). */
  function PathString(p: Path): (s: string)
    ensures |s| > 0 && s[0] == '/'
    // Only the filesystem root itself is written "/".
    ensures ValidPath(p) ==> (s == "/" <==> p == [])
  {
    "/" + Join(p)
  }

  /** `root.relativize(target)` for a target inside root: the components after the root's. */
  function Relativize(root: Path, target: Path): (rel: Path)
    requires StartsWith(target, root)
    ensures root + rel == target
    ensures |rel| == |target| - |root|
  {
    target[|root|..]
  }

  /**
   * The link name the archiver writes for a symlink whose real target lies in the
   * real root: the target relative to the root, with an empty result written as ".".
   */
  function LinkName(root: Path, target: Path): (link: string)
    requires StartsWith(target, root)
    ensures link != ""
  {
    var s := Join(Relativize(root, target));
    if s == "" then "." else s
  }

  /** The index of the first `/` in a string. */
  function FirstSlash(s: string): (i: nat)
    requires '/' in s
    ensures i < |s| && s[i] == '/'
    ensures forall j :: 0 <= j < i ==> s[j] != '/'
    decreases |s|
  {
    if s[0] == '/' then 0
    else
      assert s == [s[0]] + s[1..];
      1 + FirstSlash(s[1..])
  }

  /** The pieces of a string between its `/` separators; never empty. */
  function SplitPieces(s: string): (p: Path)
    ensures |p| >= 1
    decreases |s|
  {
    if '/' in s then
      var i := FirstSlash(s);
      [s[..i]] + SplitPieces(s[i + 1..])
    else [s]
  }

  /** Reads a relative path string back into components: the inverse of Join. */
  function Split(s: string): Path
  {
    if s == "" then [] else SplitPieces(s)
  }

  /** The link name joined back onto `root`, as `Path.resolve` does: the round trip of `Relativize`. */
  function Resolve(root: Path, link: string): Path
  {
    if link == "." then root else root + Split(link)
  }

  /** A joined canonical path is never ".", so "." in a link name always means the root. */
  lemma {:induction false} JoinNotDot(p: Path)
    requires ValidPath(p)
    ensures Join(p) != "."
  {
    if |p| == 1 {
      assert ValidComponent(p[0]);
    } else if |p| > 1 {
      assert ValidComponent(p[0]);
      assert |Join(p)| >= 2;
    }
  }

  lemma FirstSlashAfter(c: string, t: string)
    requires '/' !in c
    ensures '/' in c + "/" + t && FirstSlash(c + "/" + t) == |c|
  {
    var s := c + "/" + t;
    assert s[|c|] == '/';
    assert forall j :: 0 <= j < |c| ==> s[j] == c[j];
  }

  /** Splitting stops at the first separator, the one after a separator-free `c`. */
  lemma SplitPiecesCons(c: string, t: string)
    requires '/' !in c
    ensures SplitPieces(c + "/" + t) == [c] + SplitPieces(t)
  {
    FirstSlashAfter(c, t);
    var s := c + "/" + t;
    assert s[..|c|] == c && s[|c| + 1..] == t;
  }

  lemma {:induction false} SplitPiecesJoin(p: Path)
    requires ValidPath(p) && p != []
    ensures SplitPieces(Join(p)) == p
  {
    var c := p[0];
    assert ValidComponent(c);
    if |p| > 1 {
      var t := Join(p[1..]);
      assert Join(p) == c + "/" + t;
      SplitPiecesCons(c, t);
      SplitPiecesJoin(p[1..]);
      assert p == [c] + p[1..];
    } else {
      assert Join(p) == c && p == [c];
    }
  }

  /** Split undoes Join on canonical paths. */
  lemma SplitJoin(p: Path)
    requires ValidPath(p)
    ensures Split(Join(p)) == p
  {
    if p != [] {
      SplitPiecesJoin(p);
    }
  }

  /** Relativize undoes appending a suffix to the root. */
  lemma RelativizeAppend(root: Path, rel: Path)
    ensures StartsWith(root + rel, root)
    ensures Relativize(root, root + rel) == rel
  {
    assert (root + rel)[..|root|] == root;
  }

  /**
   * An archived link name, resolved against the root it was computed from,
   * leads back to the link's real target.
   */
  lemma LinkNameResolves(root: Path, target: Path)
    requires StartsWith(target, root) && ValidPath(target)
    ensures Resolve(root, LinkName(root, target)) == target
  {
    var rel := Relativize(root, target);
    assert ValidPath(rel) by {
      forall i | 0 <= i < |rel| ensures ValidComponent(rel[i]) {
        assert rel[i] == target[|root| + i];
      }
    }
    JoinNotDot(rel);
    SplitJoin(rel);
  }

  /** The link name is "." exactly when the link's real target is the real root itself. */
  lemma LinkNameDotIffRoot(root: Path, target: Path)
    requires StartsWith(target, root) && ValidPath(target)
    ensures LinkName(root, target) == "." <==> target == root
  {
    LinkNameResolves(root, target);
    if target == root {
      assert Relativize(root, target) == [];
    }
  }

  /** `/data2` shares the text `/data` but is not inside the directory `/data`. */
  lemma PrefixIsComponentWise()
    ensures PathString(["data"]) <= PathString(["data2"])
    ensures !StartsWith(["data2"], ["data"])
    ensures StartsWith(["data", "x"], ["data"])
  {
  }
}
