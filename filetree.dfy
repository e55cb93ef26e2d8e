/**
 * The filesystem as the archiver sees it, and what it writes: archive entries
 * and verbose log lines. Node kinds, listings and real paths are inputs here;
 * the operating system that would answer `isFile`, `listFiles` and `toRealPath`
 * is not modelled.
 */
module FileTree {
  import opened Paths

  /** What `toRealPath` and `isFile` report for a symbolic link. */
  datatype LinkTarget =
    | Missing                       // toRealPath throws NoSuchFileException
    | Unresolvable                  // toRealPath throws another IOException (a link loop, say)
    | ToFile(resolved: Path, size: nat) // resolves to a regular file, so isFile() holds
    | ToOther(resolved: Path)           // resolves to a directory or another non-regular file

  /** What `listFiles()` returns for a directory: null, or its children in listing order. */
  datatype Listing = Unavailable | Listed(children: seq<Node>)

  /** A node of the tree under the archive root; `name` is what the parent's listing gives. */
  datatype Node =
    | File(name: string, size: nat)
    | Dir(name: string, listing: Listing)
      /** Neither a regular file, a directory nor a link (a named pipe, a device). */
    | Special(name: string)
    | Symlink(name: string, target: LinkTarget)

  /** `File.isFile`, which follows links: a link to a regular file counts as a file. */
  predicate IsFile(n: Node)
  {
    n.File? || (n.Symlink? && n.target.ToFile?)
  }

  /** The length of the regular file a node stands for (its link target's, for a link). */
  function FileSize(n: Node): nat
    requires IsFile(n)
  {
    if n.File? then n.size else n.target.size
  }

  /** Every resolved link target in the tree is a canonical path. */
  predicate ValidLinks(n: Node)
  {
    match n
    case Symlink(_, t) => (t.ToFile? || t.ToOther?) ==> ValidPath(t.resolved)
    case Dir(_, Listed(cs)) => forall c :: c in cs ==> ValidLinks(c)
    case _ => true
  }

  /** The header kind of an archive entry; a regular file's entry is followed by `size` content bytes. */
  datatype EntryKind =
    | Regular(size: nat)
    | Directory
    | SpecialFile
    | SymbolicLink(linkName: string)

  /** One tar entry, named by the string the archiver gives its header. */
  datatype Entry = Entry(name: string, kind: EntryKind)

  /** The lines printed when verbose is on. */
  datatype LogLine =
    | AddingFile(path: Path)
    | AddingSymlink(path: Path, link: string)
    | EnteringDirectory(path: Path)
    | SkippingOutside(path: Path, resolved: Path)
    | SkippingMissing(path: Path)
    | StreamDone
}
