# TarGzStream: the streaming tar.gz archiver of glacier-targz-uploader

This project models the archiver in `src/glacierHelper/TarGzStream.java`. The
class walks a directory tree and writes at most one tar entry for each node it
reaches into a tar stream. That stream feeds a gzip compressor, a buffer and a pipe.

The model has five parts:

- **Paths** (`paths.dfy`) gives absolute paths as sequences of name components,
  plus `Path.startsWith`, `Path.relativize` and `Path.toString`. It adds an
  inverse, `Split`, and `Resolve`, which joins an archived link name back onto
  the real root, as `Path.resolve` does. Because the link name is relative to the
  root and not to the link's own directory, an extracted link below the top level
  generally does not point at its original target: for `/d/sub/y` linking to
  `/d/f` the link name written is `f`, which, extracted, points at `d/sub/f`.
- **FileTree** (`filetree.dfy`) holds the filesystem the archiver sees:
  - files, directories, other special files, and symbolic links;
  - what `listFiles()` returns (a listing, or `null`);
  - what `toRealPath` and `isFile` report for a link: a missing target, another
    IOException, a regular file, or anything else.

  It also holds the tar entries written and the lines printed when verbose is on.
- **EntryEncoder** (`encoder.dfy`) is the decision `addFileToTarGz` makes for one
  node:
  1. `isFile` is tested before `isSymbolicLink`.
  2. A link must pass the containment check against the real root.
  3. The link name is made relative to the real root, with `.` for the root itself.

  The outcome is an entry, a logged skip, or an IOException.
- **TreeWalker** (`walker.dfy`) is the recursion of `addFileToTarGz`:
  - `Walk` follows the code.
  - `Preorder`/`Run` is an independent reference: the pre-order of visits, with
    the per-node step applied to each visit in turn.
  - `WalkIsRun` proves the two equal, and the walk's properties follow from it.
- **Archiver** (`targz_stream.dfy`) is the `TarGzStream` object as a class. Its
  fields are the settings, the stream state, the entries put into `tOut`, and the
  printed lines. Its methods are the constructor, the setters,
  `prepareOutputStream`, `startSendingData` and the imperative `addFileToTarGz`.
  `addFileToTarGz`, its symlink branch, its loop over a listing and
  `startSendingData` are proved equal to the functional walk. The constructor,
  the setters and `prepareOutputStream` state the fields they set.

An IOException anywhere in the walk reaches the `catch` of `startSendingData`.
That `catch` calls `System.exit(1)`, so the `finally` block never runs: the
stream is neither finished nor closed, and "tar.gz stream done" is not printed.
The model ends such a run in the state `Exited`.

Three consequences of the code are worth stating plainly:

- Entries are named from the root directory's own name. Archiving `/data` gives
  `data`, then `data/a.txt` and `data/sub`. Archiving the filesystem root `/`
  gives an entry named by the empty name, then `/x` for its child `x`.
- `isFile` follows links and is tested first. So a link to a regular file becomes
  a regular-file entry holding the target's content, with no containment check: a
  link to `/etc/hostname` is archived as a regular file with its content.
  `FileLinkBypassesContainment` and `ArchiveExample` prove this.
- An archived link's entry is named by the link's own absolute path (line 159),
  not by its archive-relative name.

## Model

| member | source | states |
|---|---|---|
| `Paths.StartsWith` | src/glacierHelper/TarGzStream.java:130 | a path starts with a prefix exactly when it is that prefix followed by further components |
| `Paths.Last` | src/glacierHelper/TarGzStream.java:108 | the name of the path's last component: the empty name for the root, and otherwise the path is its parent followed by that name |
| `Paths.Join` | src/glacierHelper/TarGzStream.java:149 | the string of a relative path begins with its first component; for canonical components it is empty exactly when the path is |
| `Paths.PathString` | src/glacierHelper/TarGzStream.java:159 | an absolute path's string begins with `/`, and is just `/` exactly for the root |
| `Paths.Relativize` | src/glacierHelper/TarGzStream.java:139 | the relative path of a target inside the root is the part that, appended to the root, gives the target back |
| `Paths.LinkName` | src/glacierHelper/TarGzStream.java:149-154 | the link name written is never empty: an empty relative path is written as "." |
| `Paths.LinkNameResolves` | src/glacierHelper/TarGzStream.java:139-160 | for a canonical target inside the root, the link name joined back onto the root (`Path.resolve`) gives exactly that target |
| `Paths.LinkNameDotIffRoot` | src/glacierHelper/TarGzStream.java:149-154 | the link name is "." if and only if the link's real target is the real root itself |
| `Paths.SplitJoin` | src/glacierHelper/TarGzStream.java:149 | reading a relative path's string back into components recovers the path, for canonical components |
| `Paths.PrefixIsComponentWise` | src/glacierHelper/TarGzStream.java:130 | containment compares whole components: `/data2` is not inside `/data` although its text starts with `/data` |
| `EntryEncoder.EntryName` | src/glacierHelper/TarGzStream.java:108 | an entry name extends `base` by the node's own name: one component with no `/` for a canonical path, and nothing for the root |
| `EntryEncoder.Encode` | src/glacierHelper/TarGzStream.java:107-170 | anything `isFile` accepts, a link included, becomes a regular entry named `base + name` with its size and no containment check; other non-links become a directory (or special) entry and are never skipped; a link entry is written for a link that `isFile` rejects exactly when its real target is inside the real root, under the link's own path, with the root-relative link name ("." for the root) and an "adding symlink" line; a skip happens exactly for a missing target or one outside the root; of the failures modelled, an IOException happens exactly when the root or the target cannot be resolved |
| `EntryEncoder.ArchivedLinkResolves` | src/glacierHelper/TarGzStream.java:128-160 | every link entry written comes from a link inside the real root, and its link name joined back onto the real root gives the link's real target |
| `EntryEncoder.FileLinkBypassesContainment` | src/glacierHelper/TarGzStream.java:111-120 | a link to a regular file outside the root is archived as a regular file with that file's size |
| `TreeWalker.Walk` | src/glacierHelper/TarGzStream.java:105-180 | only a directory with a listing is descended into: a file, a special file, a link (even one to a directory) and a directory whose listing is null give at most one entry and one printed line |
| `TreeWalker.WalkChildrenAborts` | src/glacierHelper/TarGzStream.java:174-177 | the loop over a listing throws exactly when the walk of one of the children throws |
| `TreeWalker.Archive` | src/glacierHelper/TarGzStream.java:82 | the walk starts at the root with an empty base: a root that is not a link gets the first entry, named by its own name alone |
| `TreeWalker.WalkIsRun` | src/glacierHelper/TarGzStream.java:105-180 | the recursion as written equals the per-node step applied along the pre-order of visits |
| `TreeWalker.PreorderPaths` | src/glacierHelper/TarGzStream.java:107-108 | the walk visits the start node first; every later visit lies strictly below it; each visit is named by the start's own entry name, then `/` and the names below the start down to it, joined with `/`, for any start including the filesystem root |
| `TreeWalker.ChildSubtreeInListingOrder` | src/glacierHelper/TarGzStream.java:174-177 | the i-th child's subtree is visited as one block, after those of earlier children and before those of later ones |
| `TreeWalker.WalkEntryBound` | src/glacierHelper/TarGzStream.java:111-178 | the walk writes at most one entry per node it reaches |
| `TreeWalker.WalkEntryNames` | src/glacierHelper/TarGzStream.java:107-176 | every entry is the one the per-node step emits for a reached node: a link entry is named by the link's absolute path, any other by the start's entry name followed by `/` and the names below the start down to the node |
| `TreeWalker.WalkLinksContained` | src/glacierHelper/TarGzStream.java:122-163 | every link entry in the archive stands for a reached link whose real target is inside the real root, and its link name joined back onto the real root gives that target |
| `TreeWalker.WalkArchivesLinksInside` | src/glacierHelper/TarGzStream.java:139-163 | in a walk without an IOException, every reached link that `isFile` rejects and whose real target is inside the real root is archived as a link entry under its own path with its root-relative link name |
| `TreeWalker.WalkComplete` | src/glacierHelper/TarGzStream.java:164-178 | a walk that ends without an IOException met no failing node, and wrote the entry of every node reached that has one |
| `TreeWalker.WalkStopsAtFailure` | src/glacierHelper/TarGzStream.java:80-86 | a node whose step throws ends the walk: the result is exactly what the visits up to and including it produce |
| `TreeWalker.DirectoryEntryFirst` | src/glacierHelper/TarGzStream.java:164-171 | a directory's own entry is written before anything below it |
| `TreeWalker.UnavailableListing` | src/glacierHelper/TarGzStream.java:172-178 | a directory whose listing is null writes only its own entry, logs one line, and does not fail |
| `TreeWalker.SkippedLinkWritesNothing` | src/glacierHelper/TarGzStream.java:128-147 | a link with a missing target, or one outside the root, writes no entry, logs one line, and does not fail |
| `TreeWalker.SkippedLinkLeavesSiblings` | src/glacierHelper/TarGzStream.java:130-147 | a skipped link leaves its siblings' entries and the outcome exactly as if it were absent from the listing |
| `TreeWalker.WalkChildrenStops` | src/glacierHelper/TarGzStream.java:175-177 | once a child's walk throws, the children after it are not walked |
| `TreeWalker.ArchiveExample` | src/glacierHelper/TarGzStream.java:105-180 | archiving `/d` gives `d`, then `d/f`, `d/sub`, the two links to regular files as file entries, nothing for the link outside the root, and `/d/s` with target "." for the link to the root |
| `TreeWalker.ExampleLinks` | src/glacierHelper/TarGzStream.java:111-163 | in that listing, the links to regular files become file entries, the link outside the root is skipped, and the link to the root is archived |
| `Archiver.TarGzStream.constructor` | src/glacierHelper/TarGzStream.java:24-39 | a new archiver has the given path, a 1 MiB buffer size, verbose on, and no stream yet |
| `Archiver.TarGzStream.SetVerbose` | src/glacierHelper/TarGzStream.java:41-43 | sets the verbose flag only |
| `Archiver.TarGzStream.SetBufferSize` | src/glacierHelper/TarGzStream.java:45-47 | sets the buffer size only; a stream already built keeps its buffer |
| `Archiver.TarGzStream.PrepareOutputStream` | src/glacierHelper/TarGzStream.java:54-74 | a fresh, empty, open stream is built with the current buffer size exactly when that size exceeds the 10-byte gzip header; a buffer of 1 to 10 bytes passes the header straight to the unconnected pipe, whose IOException exits the process; a non-positive size changes nothing |
| `Archiver.TarGzStream.StartSendingData` | src/glacierHelper/TarGzStream.java:80-103 | the stream receives the archive of the root at `directoryPath`; after an IOException the process exits with the stream unfinished and no "done" line; otherwise the stream is closed and "done" is printed when verbose |
| `Archiver.TarGzStream.FinishStream` | src/glacierHelper/TarGzStream.java:86-101 | after a walk without an IOException the stream is finished and closed, and "tar.gz stream done" is printed when verbose |
| `Archiver.TarGzStream.Print` | src/glacierHelper/TarGzStream.java:166-167 | a line reaches standard output exactly when verbose is on |
| `Archiver.TarGzStream.AddFileToTarGz` | src/glacierHelper/TarGzStream.java:105-180 | the entries put into the stream, the lines printed, and whether an IOException escapes are exactly those of the walk |
| `Archiver.TarGzStream.AddSymlink` | src/glacierHelper/TarGzStream.java:120-163 | the symlink branch writes, prints and fails exactly as the per-node step for that link says |
| `Archiver.TarGzStream.AddChildren` | src/glacierHelper/TarGzStream.java:172-178 | the loop over the listing writes, prints and fails exactly as the walk of the children in listing order |

## Left out

- The tar and gzip byte encoding, the long-file and big-number modes, and the
  pipe to the reader thread. The tar stream is modelled by the sequence of entries
  put into it, and the chain by the stream's state.
- The name normalisation commons-compress applies inside `TarArchiveEntry`:
  stripping a leading `/` and adding a trailing `/` to directory names. Entry names
  are the strings the archiver passes in.
- File contents. A regular entry carries the file's size and not its bytes. A
  `FileInputStream` that fails to open or read is not modelled, so the model
  never aborts after a file header.
- The operating system's answers. Node kinds, listings, listing order, file sizes
  and `toRealPath` results are inputs, and `ValidLinks` states that resolved
  targets are canonical. A root path given as a relative string is not modelled:
  `directoryPath` is absolute.
- Archiver.TarGzStream.PrepareOutputStream: a non-positive buffer size makes
  `BufferedOutputStream` throw an IllegalArgumentException. That exception escapes
  to the caller, because the `catch` there only handles IOException. The model
  reports `false` and leaves the stream state as it was. The new
  `PipedOutputStream` that line 56 has already stored is not modelled.
- Write failures on the tar stream. `putArchiveEntry`, `IOUtils.copy` and
  `closeArchiveEntry` (lines 115-119, 162-163 and 169-170) can throw an
  IOException, for instance when the reader closes the pipe or a file changes
  length while it is copied. In the model the walk fails only where the root or a
  link target cannot be resolved.
- Archiver.TarGzStream.StartSendingData: requires a prepared, open stream.
  Calling it before `prepareOutputStream` (a NullPointerException) or after a
  finished run is not modelled.
- Archiver.TarGzStream.FinishStream: an IOException from `finish()` or the close
  chain (lines 87-99) is not modelled; the model always reaches `Closed`.
- The `run()` method (lines 185-188) only calls `startSendingData` on another
  thread. Concurrency with the reader of the pipe is not modelled.
- `printStackTrace` output is not modelled, and `System.exit(1)` is modelled as
  the state `Exited`.
