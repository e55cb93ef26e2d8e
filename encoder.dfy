/**
 * What `addFileToTarGz` does with one node before it decides whether to
 * recurse: the branch chosen (`isFile`, then `isSymbolicLink`, then the
 * directory branch), the entry it writes, the line it logs, and the
 * symlink containment policy.
 */
module EntryEncoder {
  import opened Wrappers
  import opened Paths
  import opened FileTree

  /** The outcome for one node: an entry, a logged skip, or an IOException that ends the walk. */
  datatype Step = Emit(entry: Entry, line: LogLine) | Skip(line: LogLine) | Fail

  /** `base + f.getName()`: the name the node's entry gets unless it is an archived link. */
  function EntryName(path: Path, base: string): (name: string)
    // The name extends `base` by the node's own name: for a canonical path, one component and no `/`.
    ensures base <= name
    ensures ValidPath(path) ==> '/' !in name[|base|..]
    ensures ValidPath(path) ==> (name == base <==> path == [])
  {
    base + Last(path)
  }

  /**
   * Encodes the node at `path`, whose parent's entry name plus `/` is `base`.
   * `rootReal` is the real path of the archive root, or None when resolving it
   * throws.
   */
  function Encode(n: Node, path: Path, base: string, rootReal: Option<Path>): (s: Step)
    // Whatever `isFile` accepts, a link included, is archived with its content and no containment check.
    ensures IsFile(n) ==> s == Emit(Entry(EntryName(path, base), Regular(FileSize(n))), AddingFile(path))
    // Everything else that is not a link takes the directory branch and is never skipped.
    ensures !n.Symlink? && !n.File? ==>
      s.Emit? && s.entry.name == EntryName(path, base) && s.line == EnteringDirectory(path)
      && (s.entry.kind == Directory <==> n.Dir?)
    // A link entry is written only for a link resolving inside the real root, under the link's own path,
    // with its target relative to the root.
    ensures s.Emit? && s.entry.kind.SymbolicLink? ==>
      && n.Symlink? && n.target.ToOther? && rootReal.Some?
      && StartsWith(n.target.resolved, rootReal.value)
      && s.entry.name == PathString(path)
      && s.entry.kind.linkName == LinkName(rootReal.value, n.target.resolved)
    // Conversely, a link that `isFile` rejects and whose real target is inside the real root is archived
    // under its own path with its root-relative target, "." for the root itself.
    ensures (n.Symlink? && !IsFile(n) && rootReal.Some? && n.target.ToOther?
             && StartsWith(n.target.resolved, rootReal.value)) ==>
      s == Emit(Entry(PathString(path), SymbolicLink(LinkName(rootReal.value, n.target.resolved))),
                AddingSymlink(path, LinkName(rootReal.value, n.target.resolved)))
    ensures s.Skip? <==>
      n.Symlink? && rootReal.Some?
      && (n.target.Missing? || (n.target.ToOther? && !StartsWith(n.target.resolved, rootReal.value)))
    ensures s.Fail? <==> n.Symlink? && !IsFile(n) && (rootReal.None? || n.target.Unresolvable?)
  {
    var entryName := EntryName(path, base);
    if IsFile(n) then
      Emit(Entry(entryName, Regular(FileSize(n))), AddingFile(path))
    else if n.Symlink? then
      if rootReal.None? then Fail
      else if n.target.Missing? then Skip(SkippingMissing(path))
      else if n.target.Unresolvable? then Fail
      else if !StartsWith(n.target.resolved, rootReal.value) then
        Skip(SkippingOutside(path, n.target.resolved))
      else
        var link := LinkName(rootReal.value, n.target.resolved);
        Emit(Entry(PathString(path), SymbolicLink(link)), AddingSymlink(path, link))
    else
      Emit(Entry(entryName, if n.Dir? then Directory else SpecialFile), EnteringDirectory(path))
  }

  /**
   * An archived link's name, joined back onto the real root as `Path.resolve`
   * does, gives the link's real target. The name is relative to the root, not
   * to the link's own directory, so a link archived below the top level and
   * extracted generally points elsewhere.
   */
  lemma ArchivedLinkResolves(n: Node, path: Path, base: string, rootReal: Option<Path>)
    requires ValidLinks(n)
    requires Encode(n, path, base, rootReal).Emit?
    requires Encode(n, path, base, rootReal).entry.kind.SymbolicLink?
    ensures rootReal.Some? && n.Symlink? && n.target.ToOther?
    ensures StartsWith(n.target.resolved, rootReal.value)
    ensures Resolve(rootReal.value, Encode(n, path, base, rootReal).entry.kind.linkName) == n.target.resolved
  {
    LinkNameResolves(rootReal.value, n.target.resolved);
  }

  /** A link to a regular file outside the root is archived as a file with that file's content. */
  lemma FileLinkBypassesContainment(name: string, resolved: Path, size: nat, path: Path, base: string, root: Path)
    requires !StartsWith(resolved, root)
    ensures Encode(Symlink(name, ToFile(resolved, size)), path, base, Some(root))
            == Emit(Entry(base + Last(path), Regular(size)), AddingFile(path))
  {
  }
}
