/**
 * The `TarGzStream` object: its settings, the archive stream it prepares, and
 * the walk that puts entries into that stream. The tar stream `tOut` is
 * modelled by the sequence of entries put into it, standard output by the
 * sequence of lines printed, and the pipe and compressor chain by the state of
 * the stream as a whole.
 */
module Archiver {
  import opened Wrappers
  import opened Paths
  import opened FileTree
  import opened EntryEncoder
  import opened TreeWalker

  const DefaultBufferSize: int := 1024 * 1024

  /**
   * The gzip stage writes its fixed 10-byte header (RFC 1952, section 2.3) as
   * soon as it is created, in a single write.
   */
  const GzipHeaderSize: int := 10

  /** The part of `lines` that reaches standard output. */
  function Printed(verbose: bool, lines: seq<LogLine>): seq<LogLine>
  {
    if verbose then lines else []
  }

  lemma PrintedAppend(verbose: bool, a: seq<LogLine>, b: seq<LogLine>)
    ensures Printed(verbose, a + b) == Printed(verbose, a) + Printed(verbose, b)
  {
  }

  /** Printing `a` and then `b` after `log0` prints `a + b` after it. */
  lemma PrintedAfter(log0: seq<LogLine>, verbose: bool, a: seq<LogLine>, b: seq<LogLine>)
    ensures log0 + Printed(verbose, a) + Printed(verbose, b) == log0 + Printed(verbose, a + b)
  {
    AppendAssoc(log0, Printed(verbose, a), Printed(verbose, b));
    PrintedAppend(verbose, a, b);
  }

  /**
   * What a walk `a` that did not throw followed by a walk `b` writes and prints
   * after `entries0` and `log0` is what their sequence `Then(a, b)` writes and prints.
   */
  lemma ThenWritten(entries0: seq<Entry>, log0: seq<LogLine>, verbose: bool, a: Walked, b: Walked)
    requires !a.aborted
    ensures entries0 + a.entries + b.entries == entries0 + Then(a, b).entries
    ensures log0 + Printed(verbose, a.log) + Printed(verbose, b.log) == log0 + Printed(verbose, Then(a, b).log)
    ensures Then(a, b).aborted == b.aborted
  {
    AppendAssoc(entries0, a.entries, b.entries);
    PrintedAfter(log0, verbose, a.log, b.log);
  }

  /**
   * Unprepared: no streams yet. Open: `tOut` accepts entries. Closed: the tar
   * trailer is written and the whole chain closed. Exited: an IOException while
   * preparing the stream or during the walk made the process exit, leaving the
   * stream unfinished.
   */
  datatype StreamState = Unprepared | Open | Closed | Exited

  class TarGzStream {
    var bufferSize: int
    var verbose: bool
    var directoryPath: Path
    /** The size the buffering stage was created with by the last successful preparation. */
    var streamBufferSize: int
    var state: StreamState
    /** The entries put into the tar stream, in order. */
    var entries: seq<Entry>
    /** The lines printed to standard output. */
    var log: seq<LogLine>

    constructor (directoryPath: Path)
      ensures this.directoryPath == directoryPath
      ensures bufferSize == DefaultBufferSize && verbose
      ensures state == Unprepared && entries == [] && log == []
    {
      this.directoryPath := directoryPath;
      bufferSize := DefaultBufferSize;
      verbose := true;
      streamBufferSize := 0;
      state := Unprepared;
      entries := [];
      log := [];
    }

    method SetVerbose(verbose: bool)
      modifies this`verbose
      ensures this.verbose == verbose
    {
      this.verbose := verbose;
    }

    /** Takes effect at the next preparation only: a stream already built keeps its buffer. */
    method SetBufferSize(bufferSize: int)
      modifies this`bufferSize
      ensures this.bufferSize == bufferSize
    {
      this.bufferSize := bufferSize;
    }

    /**
     * Builds a fresh pipe, buffering stage, gzip stage and tar stream. A buffer
     * size that is not positive makes the buffering stage throw an
     * IllegalArgumentException, which escapes, and the new stream chain is not
     * built. The gzip stage writes its header while it is created; a buffer no
     * larger than that header passes the write straight on to the pipe, which
     * has no reader connected yet and throws an IOException, and the process
     * exits.
     */
    method PrepareOutputStream() returns (ok: bool)
      modifies this`state, this`entries, this`streamBufferSize
      ensures ok <==> old(bufferSize) > GzipHeaderSize
      ensures ok ==> state == Open && entries == [] && streamBufferSize == bufferSize
      ensures 0 < old(bufferSize) <= GzipHeaderSize ==> state == Exited
      ensures old(bufferSize) <= 0 ==> state == old(state)
      ensures !ok ==> entries == old(entries) && streamBufferSize == old(streamBufferSize)
    {
      if bufferSize <= 0 {
        return false;
      }
      if bufferSize <= GzipHeaderSize {
        state := Exited;
        return false;
      }
      streamBufferSize := bufferSize;
      state := Open;
      entries := [];
      ok := true;
    }

    /**
     * Walks the tree `root` found at `directoryPath` into the tar stream, then
     * finishes and closes it. An IOException during the walk ends the process
     * before the stream is finished and before "done" is printed.
     */
    method StartSendingData(root: Node, rootReal: Option<Path>)
      requires state == Open
      modifies this`entries, this`log, this`state
      ensures entries == old(entries) + Archive(root, directoryPath, rootReal).entries
      ensures state == if Archive(root, directoryPath, rootReal).aborted then Exited else Closed
      ensures log == old(log) + Printed(verbose, Archive(root, directoryPath, rootReal).log
        + if Archive(root, directoryPath, rootReal).aborted then [] else [StreamDone])
    {
      ghost var logStart, shown := log, verbose;
      var rootPath := directoryPath;
      ghost var archive := Walk(root, rootPath, "", rootReal);
      assert archive == Archive(root, rootPath, rootReal);
      var failed := AddFileToTarGz(root, rootPath, "", rootReal);
      assert rootPath == directoryPath;
      if failed {
        state := Exited;
        return;
      }
      FinishStream();
      PrintedAfter(logStart, shown, archive.log, [StreamDone]);
    }

    /**
     * The `finally` block after a walk without an IOException: the tar stream is
     * finished, the stream chain closed, and "done" printed when verbose.
     */
    method FinishStream()
      requires state == Open
      modifies this`state, this`log
      ensures state == Closed
      ensures log == old(log) + Printed(verbose, [StreamDone])
    {
      state := Closed;
      Print(StreamDone);
    }

    /** Prints a line when verbose is on. */
    method Print(line: LogLine)
      modifies this`log
      ensures log == old(log) + Printed(verbose, [line])
    {
      if verbose {
        log := log + [line];
      }
    }

    /**
     * Puts the node `n` found at `path`, and everything below it, into the tar
     * stream. `failed` stands for the IOException the source lets propagate.
     */
    method AddFileToTarGz(n: Node, path: Path, base: string, rootReal: Option<Path>) returns (failed: bool)
      modifies this`entries, this`log
      ensures failed == Walk(n, path, base, rootReal).aborted
      ensures entries == old(entries) + Walk(n, path, base, rootReal).entries
      ensures log == old(log) + Printed(verbose, Walk(n, path, base, rootReal).log)
      decreases n
    {
      var entryName := base + Last(path);
      failed := false;
      if IsFile(n) {
        Print(AddingFile(path));
        entries := entries + [Entry(entryName, Regular(FileSize(n)))];
      } else if n.Symlink? {
        failed := AddSymlink(n, path, base, rootReal);
      } else {
        ghost var entriesStart, logStart, shown := entries, log, verbose;
        ghost var here := Single(Encode(n, path, base, rootReal));
        Print(EnteringDirectory(path));
        entries := entries + [Entry(entryName, if n.Dir? then Directory else SpecialFile)];
        if n.Dir? && n.listing.Listed? {
          ghost var below := WalkChildren(n.listing.children, path, entryName + "/", rootReal);
          assert Walk(n, path, base, rootReal) == Then(here, below);
          ThenWritten(entriesStart, logStart, shown, here, below);
          failed := AddChildren(n.listing.children, path, entryName + "/", rootReal);
        }
      }
    }

    /**
     * The symlink branch: the containment check and the link name relative to the
     * real root. The entry is named by `path`; `base` plays no part.
     */
    method AddSymlink(n: Node, path: Path, base: string, rootReal: Option<Path>) returns (failed: bool)
      requires n.Symlink? && !IsFile(n)
      modifies this`entries, this`log
      ensures failed == Encode(n, path, base, rootReal).Fail?
      ensures entries == old(entries) + Single(Encode(n, path, base, rootReal)).entries
      ensures log == old(log) + Printed(verbose, Single(Encode(n, path, base, rootReal)).log)
    {
      failed := false;
      if rootReal.None? {
        return true;
      }
      var absoluteRootPath := rootReal.value;
      if n.target.Missing? {
        Print(SkippingMissing(path));
        return;
      }
      if n.target.Unresolvable? {
        return true;
      }
      var absoluteTargetPath := n.target.resolved;
      if !StartsWith(absoluteTargetPath, absoluteRootPath) {
        Print(SkippingOutside(path, absoluteTargetPath));
        return;
      }
      var targetString := Join(Relativize(absoluteRootPath, absoluteTargetPath));
      if targetString == "" {
        targetString := ".";
      }
      Print(AddingSymlink(path, targetString));
      entries := entries + [Entry(PathString(path), SymbolicLink(targetString))];
    }

    /** The loop over a directory's listing; the first child that fails ends it. */
    method AddChildren(children: seq<Node>, path: Path, childBase: string, rootReal: Option<Path>) returns (failed: bool)
      modifies this`entries, this`log
      ensures failed == WalkChildren(children, path, childBase, rootReal).aborted
      ensures entries == old(entries) + WalkChildren(children, path, childBase, rootReal).entries
      ensures log == old(log) + Printed(verbose, WalkChildren(children, path, childBase, rootReal).log)
      decreases children
    {
      failed := false;
      ghost var entriesStart, logStart, shown := entries, log, verbose;
      ghost var done := Nothing;
      var i := 0;
      while i < |children|
        invariant 0 <= i <= |children|
        invariant done == WalkChildren(children[..i], path, childBase, rootReal) && !done.aborted
        invariant entries == entriesStart + done.entries
        invariant verbose == shown
        invariant log == logStart + Printed(shown, done.log)
      {
        var child := children[i];
        ghost var walked := Walk(child, path + [child.name], childBase, rootReal);
        failed := AddFileToTarGz(child, path + [child.name], childBase, rootReal);
        ThenWritten(entriesStart, logStart, shown, done, walked);
        WalkChildrenSnoc(children, i, path, childBase, rootReal);
        done := Then(done, walked);
        if failed {
          assert done == WalkChildren(children, path, childBase, rootReal) by {
            WalkChildrenStops(children, i, path, childBase, rootReal);
          }
          return;
        }
        i := i + 1;
      }
      assert children[..i] == children;
    }
}
}
