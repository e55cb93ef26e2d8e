/**
 * The recursion of `addFileToTarGz`: a directory's own entry first, then each
 * child of its listing in listing order, each child at its parent's path plus
 * its name and with the parent's entry name plus `/` as its base. An
 * IOException from any node ends the whole walk.
 *
 * `Walk` follows the recursion as written. `Preorder` and `Run` give an
 * independent reading of it: the order in which nodes are visited, and the
 * per-node `Encode` applied to each visit in turn; `WalkIsRun` proves the two
 * agree, and the properties of the walk are derived from that.
 */
module TreeWalker {
  import opened Wrappers
  import opened Paths
  import opened FileTree
  import opened EntryEncoder

  /** What a walk leaves behind: the entries written, the lines logged, and whether an IOException ended it. */
  datatype Walked = Walked(entries: seq<Entry>, log: seq<LogLine>, aborted: bool)

  const Nothing := Walked([], [], false)

  /** What a single node's step writes. */
  function Single(s: Step): Walked
  {
    match s
    case Emit(e, line) => Walked([e], [line], false)
    case Skip(line) => Walked([], [line], false)
    case Fail => Walked([], [], true)
  }

  /** `a`, then `b` unless `a` ended in an exception. */
  function Then(a: Walked, b: Walked): Walked
  {
    if a.aborted then a else Walked(a.entries + b.entries, a.log + b.log, b.aborted)
  }

  /** The base the children of the node at `path` are given: its entry name and a `/`. */
  function ChildBase(path: Path, base: string): string
  {
    EntryName(path, base) + "/"
  }

  /** `addFileToTarGz(tOut, path, base, root)` on the node `n` found at `path`. */
  function Walk(n: Node, path: Path, base: string, rootReal: Option<Path>): (w: Walked)
    // Only a directory with a listing is descended into: a file, a special file or a link
    // (even a link to a directory) gives at most one entry and one line.
    ensures !(n.Dir? && n.listing.Listed?) ==> |w.entries| <= 1 && |w.log| <= 1
  {
    var here := Single(Encode(n, path, base, rootReal));
    if n.Dir? && n.listing.Listed? then
      Then(here, WalkChildren(n.listing.children, path, ChildBase(path, base), rootReal))
    else here
  }

  /** The loop over a directory's listing, each child at `parent` plus its name. */
  function WalkChildren(cs: seq<Node>, parent: Path, base: string, rootReal: Option<Path>): Walked
  {
    if cs == [] then Nothing
    else Then(Walk(cs[0], parent + [cs[0].name], base, rootReal), WalkChildren(cs[1..], parent, base, rootReal))
  }

  /** The walk `startSendingData` starts: the root at its own path, with base "". */
  function Archive(root: Node, rootPath: Path, rootReal: Option<Path>): (w: Walked)
    // A root that is not a link gets the first entry, named by its own name with no prefix.
    ensures !root.Symlink? ==> w.entries != [] && w.entries[0].name == Last(rootPath)
  {
    Walk(root, rootPath, "", rootReal)
  }

  /** One node reached by the walk, with the path and base it is reached with. */
  datatype Visit = Visit(node: Node, path: Path, base: string)

  /** The nodes the walk reaches, in the order it reaches them, when nothing fails. */
  function Preorder(n: Node, path: Path, base: string): seq<Visit>
  {
    [Visit(n, path, base)]
      + if n.Dir? && n.listing.Listed? then PreorderAll(n.listing.children, path, ChildBase(path, base)) else []
  }

  function PreorderAll(cs: seq<Node>, parent: Path, base: string): seq<Visit>
  {
    if cs == [] then [] else Preorder(cs[0], parent + [cs[0].name], base) + PreorderAll(cs[1..], parent, base)
  }

  function StepOf(v: Visit, rootReal: Option<Path>): Step
  {
    Encode(v.node, v.path, v.base, rootReal)
  }

  /** Each visit's step in turn, up to and including the first that fails. */
  function Run(vs: seq<Visit>, rootReal: Option<Path>): Walked
  {
    if vs == [] then Nothing else Then(Single(StepOf(vs[0], rootReal)), Run(vs[1..], rootReal))
  }

  lemma AppendAssoc<T>(a: seq<T>, b: seq<T>, c: seq<T>)
    ensures a + (b + c) == (a + b) + c
  {
  }

  lemma ThenAssoc(a: Walked, b: Walked, c: Walked)
    ensures Then(a, Then(b, c)) == Then(Then(a, b), c)
  {
    if !a.aborted && !b.aborted {
      assert (a.entries + b.entries) + c.entries == a.entries + (b.entries + c.entries);
      assert (a.log + b.log) + c.log == a.log + (b.log + c.log);
    }
  }

  lemma {:induction false} RunAppend(a: seq<Visit>, c: seq<Visit>, rootReal: Option<Path>)
    ensures Run(a + c, rootReal) == Then(Run(a, rootReal), Run(c, rootReal))
  {
    if a == [] {
      assert a + c == c;
    } else {
      assert (a + c)[1..] == a[1..] + c;
      RunAppend(a[1..], c, rootReal);
      ThenAssoc(Single(StepOf(a[0], rootReal)), Run(a[1..], rootReal), Run(c, rootReal));
    }
  }

  /** The recursion as written is the per-node step applied along the pre-order. */
  lemma {:induction false} WalkIsRun(n: Node, path: Path, base: string, rootReal: Option<Path>)
    ensures Walk(n, path, base, rootReal) == Run(Preorder(n, path, base), rootReal)
    decreases n, 1
  {
    var head := [Visit(n, path, base)];
    if n.Dir? && n.listing.Listed? {
      var rest := PreorderAll(n.listing.children, path, ChildBase(path, base));
      WalkChildrenIsRun(n.listing.children, path, ChildBase(path, base), rootReal);
      RunAppend(head, rest, rootReal);
    } else {
      assert Preorder(n, path, base) == head;
    }
  }

  lemma {:induction false} WalkChildrenIsRun(cs: seq<Node>, parent: Path, base: string, rootReal: Option<Path>)
    ensures WalkChildren(cs, parent, base, rootReal) == Run(PreorderAll(cs, parent, base), rootReal)
    decreases cs, 0
  {
    if cs != [] {
      WalkIsRun(cs[0], parent + [cs[0].name], base, rootReal);
      WalkChildrenIsRun(cs[1..], parent, base, rootReal);
      RunAppend(Preorder(cs[0], parent + [cs[0].name], base), PreorderAll(cs[1..], parent, base), rootReal);
    }
  }

  /** Each visit writes at most one entry. */
  lemma {:induction false} RunEntryBound(vs: seq<Visit>, rootReal: Option<Path>)
    ensures |Run(vs, rootReal).entries| <= |vs|
  {
    if vs != [] {
      RunEntryBound(vs[1..], rootReal);
    }
  }

  /** Every entry written is the entry of some visit's step. */
  lemma {:induction false} RunEntriesFromVisits(vs: seq<Visit>, rootReal: Option<Path>)
    ensures forall e :: e in Run(vs, rootReal).entries ==>
      exists v :: v in vs && StepOf(v, rootReal).Emit? && StepOf(v, rootReal).entry == e
  {
    if vs != [] {
      RunEntriesFromVisits(vs[1..], rootReal);
      forall e | e in Run(vs, rootReal).entries
        ensures exists v :: v in vs && StepOf(v, rootReal).Emit? && StepOf(v, rootReal).entry == e
      {
        var s := StepOf(vs[0], rootReal);
        if !(s.Emit? && s.entry == e) {
          assert e in Run(vs[1..], rootReal).entries;
          var v :| v in vs[1..] && StepOf(v, rootReal).Emit? && StepOf(v, rootReal).entry == e;
          assert v in vs;
        }
      }
    }
  }

  /** A run that does not abort writes the entry of every visit that has one, and nothing fails. */
  lemma {:induction false} RunComplete(vs: seq<Visit>, rootReal: Option<Path>)
    requires !Run(vs, rootReal).aborted
    ensures forall v :: v in vs ==> !StepOf(v, rootReal).Fail?
    ensures forall v :: v in vs && StepOf(v, rootReal).Emit? ==> StepOf(v, rootReal).entry in Run(vs, rootReal).entries
  {
    if vs != [] {
      RunComplete(vs[1..], rootReal);
      assert forall v :: v in vs ==> v == vs[0] || v in vs[1..];
    }
  }

  /** Once a visit fails, nothing after it is written or logged. */
  lemma {:induction false} RunStopsAtFailure(vs: seq<Visit>, k: nat, rootReal: Option<Path>)
    requires k < |vs| && StepOf(vs[k], rootReal).Fail?
    ensures Run(vs, rootReal) == Run(vs[..k + 1], rootReal)
    ensures Run(vs, rootReal).aborted
  {
    if k > 0 {
      RunStopsAtFailure(vs[1..], k - 1, rootReal);
      assert vs[..k + 1][1..] == vs[1..][..k];
    } else {
      assert vs[..1][1..] == [];
    }
  }

  lemma {:induction false} PreorderAllAppend(a: seq<Node>, b: seq<Node>, parent: Path, base: string)
    ensures PreorderAll(a + b, parent, base) == PreorderAll(a, parent, base) + PreorderAll(b, parent, base)
  {
    if a != [] {
      var first := Preorder(a[0], parent + [a[0].name], base);
      assert (a + b)[0] == a[0];
      assert (a + b)[1..] == a[1..] + b;
      assert PreorderAll(a + b, parent, base) == first + PreorderAll(a[1..] + b, parent, base);
      PreorderAllAppend(a[1..], b, parent, base);
      AppendAssoc(first, PreorderAll(a[1..], parent, base), PreorderAll(b, parent, base));
    } else {
      assert a + b == b;
    }
  }

  /**
   * Siblings in listing order: the subtree of the i-th child is visited as one
   * block, after the subtrees of the children listed before it and before
   * those of the children listed after it.
   */
  lemma ChildSubtreeInListingOrder(cs: seq<Node>, i: nat, parent: Path, base: string)
    requires i < |cs|
    ensures PreorderAll(cs, parent, base)
            == PreorderAll(cs[..i], parent, base)
               + Preorder(cs[i], parent + [cs[i].name], base)
               + PreorderAll(cs[i + 1..], parent, base)
  {
    assert cs == cs[..i] + ([cs[i]] + cs[i + 1..]);
    PreorderAllAppend(cs[..i], [cs[i]] + cs[i + 1..], parent, base);
    assert ([cs[i]] + cs[i + 1..])[1..] == cs[i + 1..];
    assert PreorderAll([cs[i]] + cs[i + 1..], parent, base)
           == Preorder(cs[i], parent + [cs[i].name], base) + PreorderAll(cs[i + 1..], parent, base);
  }

  lemma JoinCons(x: string, rest: Path)
    requires rest != []
    ensures Join([x] + rest) == x + "/" + Join(rest)
  {
    assert ([x] + rest)[1..] == rest;
  }

  /** A name under a child of `parent` is `base` followed by the names below `parent`. */
  lemma NameThroughChild(q: Path, parent: Path, x: string, base: string)
    requires StartsWith(q, parent + [x])
    ensures EntryName(parent + [x], base) + (if q == parent + [x] then "" else "/" + Join(q[|parent| + 1..]))
      == base + Join(q[|parent|..])
  {
    var tail := q[|parent| + 1..];
    assert q[|parent|..] == [x] + tail;
    if q == parent + [x] {
      assert tail == [];
      assert Join([x]) == x;
    } else {
      JoinCons(x, tail);
    }
  }

  lemma StartsWithSelf(p: Path)
    ensures StartsWith(p, p)
  {
    assert p[..|p|] == p;
  }

  lemma ChildVisitName(v: Visit, path: Path, base: string)
    requires |v.path| > |path| && StartsWith(v.path, path)
    requires EntryName(v.path, v.base) == ChildBase(path, base) + Join(v.path[|path|..])
    ensures StartsWith(v.path, path) &&
      EntryName(v.path, v.base) == EntryName(path, base) + (if v.path == path then "" else "/" + Join(v.path[|path|..]))
  {
  }

  /**
   * Pre-order and naming: the walk starts at the node itself, every later visit
   * lies strictly below it, and every node reached is named by the start's own
   * entry name followed by `/` and the names below the start down to that node.
   * Started at the filesystem root, whose own name is empty, this gives `/x` for
   * its child `x`.
   */
  lemma {:induction false} PreorderPaths(n: Node, path: Path, base: string)
    ensures Preorder(n, path, base)[0] == Visit(n, path, base)
    ensures forall i :: 0 < i < |Preorder(n, path, base)| ==> |Preorder(n, path, base)[i].path| > |path|
    ensures forall v :: v in Preorder(n, path, base) ==>
      (StartsWith(v.path, path) &&
       EntryName(v.path, v.base) == EntryName(path, base) + (if v.path == path then "" else "/" + Join(v.path[|path|..])))
    decreases n, 1
  {
    var vs := Preorder(n, path, base);
    if n.Dir? && n.listing.Listed? {
      var cb := ChildBase(path, base);
      var rest := PreorderAll(n.listing.children, path, cb);
      PreorderAllPaths(n.listing.children, path, cb);
      assert vs == [Visit(n, path, base)] + rest;
      forall i | 0 < i < |vs| ensures |vs[i].path| > |path| {
        assert vs[i] == rest[i - 1];
        assert vs[i] in rest;
      }
      forall v | v in vs
        ensures StartsWith(v.path, path) &&
          EntryName(v.path, v.base) == EntryName(path, base) + (if v.path == path then "" else "/" + Join(v.path[|path|..]))
      {
        if v in rest {
          ChildVisitName(v, path, base);
        } else {
          StartsWithSelf(path);
        }
      }
    } else {
      assert vs == [Visit(n, path, base)];
      StartsWithSelf(path);
    }
  }

  lemma {:induction false} PreorderAllPaths(cs: seq<Node>, parent: Path, base: string)
    ensures forall v :: v in PreorderAll(cs, parent, base) ==>
      |v.path| > |parent| && StartsWith(v.path, parent) && EntryName(v.path, v.base) == base + Join(v.path[|parent|..])
    decreases cs, 0
  {
    if cs != [] {
      var p := parent + [cs[0].name];
      PreorderPaths(cs[0], p, base);
      PreorderAllPaths(cs[1..], parent, base);
      forall v | v in Preorder(cs[0], p, base)
        ensures |v.path| > |parent| && StartsWith(v.path, parent)
        ensures EntryName(v.path, v.base) == base + Join(v.path[|parent|..])
      {
        assert v.path[..|p|] == p;
        assert v.path[..|parent|] == p[..|parent|];
        NameThroughChild(v.path, parent, cs[0].name, base);
      }
    }
  }

  /** Every node reached from a node whose links are canonical has canonical links. */
  lemma {:induction false} PreorderValidLinks(n: Node, path: Path, base: string)
    requires ValidLinks(n)
    ensures forall v :: v in Preorder(n, path, base) ==> ValidLinks(v.node)
    decreases n, 1
  {
    if n.Dir? && n.listing.Listed? {
      PreorderAllValidLinks(n.listing.children, path, ChildBase(path, base));
    }
  }

  lemma {:induction false} PreorderAllValidLinks(cs: seq<Node>, parent: Path, base: string)
    requires forall c :: c in cs ==> ValidLinks(c)
    ensures forall v :: v in PreorderAll(cs, parent, base) ==> ValidLinks(v.node)
    decreases cs, 0
  {
    if cs != [] {
      PreorderValidLinks(cs[0], parent + [cs[0].name], base);
      PreorderAllValidLinks(cs[1..], parent, base);
    }
  }

  /** Each node reached writes at most one entry: symlinks and files are never descended into. */
  lemma WalkEntryBound(n: Node, path: Path, base: string, rootReal: Option<Path>)
    ensures |Walk(n, path, base, rootReal).entries| <= |Preorder(n, path, base)|
  {
    WalkIsRun(n, path, base, rootReal);
    RunEntryBound(Preorder(n, path, base), rootReal);
  }

  /**
   * Entry names: a link's entry is named by the link's own path; every other
   * entry by `base`, the start's name and the names below it joined with `/`.
   */
  lemma VisitName(v: Visit, n: Node, path: Path, base: string)
    requires v in Preorder(n, path, base)
    ensures StartsWith(v.path, path) &&
      EntryName(v.path, v.base) == EntryName(path, base) + (if v.path == path then "" else "/" + Join(v.path[|path|..]))
  {
    PreorderPaths(n, path, base);
  }

  /** An emitted link entry is named by the link's absolute path, any other by its entry name. */
  lemma EmittedName(n: Node, path: Path, base: string, rootReal: Option<Path>)
    requires Encode(n, path, base, rootReal).Emit?
    ensures Encode(n, path, base, rootReal).entry.name ==
      if Encode(n, path, base, rootReal).entry.kind.SymbolicLink? then PathString(path) else EntryName(path, base)
  {
  }

  lemma WalkEntryNames(n: Node, path: Path, base: string, rootReal: Option<Path>)
    ensures forall e :: e in Walk(n, path, base, rootReal).entries ==>
      exists v :: v in Preorder(n, path, base) && StartsWith(v.path, path)
        && StepOf(v, rootReal).Emit? && StepOf(v, rootReal).entry == e
        && e.name == (if e.kind.SymbolicLink? then PathString(v.path)
                      else EntryName(path, base) + (if v.path == path then "" else "/" + Join(v.path[|path|..])))
  {
    var vs := Preorder(n, path, base);
    WalkIsRun(n, path, base, rootReal);
    RunEntriesFromVisits(vs, rootReal);
    forall e | e in Walk(n, path, base, rootReal).entries
      ensures exists v ::
                v in vs && StartsWith(v.path, path)
                && StepOf(v, rootReal).Emit? && StepOf(v, rootReal).entry == e
                && e.name == (if e.kind.SymbolicLink? then PathString(v.path)
                              else EntryName(path, base) + (if v.path == path then "" else "/" + Join(v.path[|path|..])))
    {
      var v :| v in vs && StepOf(v, rootReal).Emit? && StepOf(v, rootReal).entry == e;
      EmittedName(v.node, v.path, v.base, rootReal);
      VisitName(v, n, path, base);
    }
  }

  /**
   * Containment: every link entry written stands for a link reached by the walk
   * whose real target lies inside the real root, and its link name, resolved
   * against the root, is that target.
   */
  lemma WalkLinksContained(n: Node, path: Path, base: string, rootReal: Option<Path>)
    requires ValidLinks(n)
    ensures forall e :: e in Walk(n, path, base, rootReal).entries && e.kind.SymbolicLink? ==>
      rootReal.Some? &&
      exists v :: v in Preorder(n, path, base) && v.node.Symlink? && v.node.target.ToOther?
        && StartsWith(v.node.target.resolved, rootReal.value)
        && Resolve(rootReal.value, e.kind.linkName) == v.node.target.resolved
  {
    var vs := Preorder(n, path, base);
    WalkIsRun(n, path, base, rootReal);
    RunEntriesFromVisits(vs, rootReal);
    PreorderValidLinks(n, path, base);
    forall e | e in Walk(n, path, base, rootReal).entries && e.kind.SymbolicLink?
      ensures rootReal.Some? &&
        exists v :: v in vs && v.node.Symlink? && v.node.target.ToOther?
          && StartsWith(v.node.target.resolved, rootReal.value)
          && Resolve(rootReal.value, e.kind.linkName) == v.node.target.resolved
    {
      var v :| v in vs && StepOf(v, rootReal).Emit? && StepOf(v, rootReal).entry == e;
      ArchivedLinkResolves(v.node, v.path, v.base, rootReal);
    }
  }

  /**
   * A walk that ends without an exception has written the entry of every node it
   * reached that has one.
   */
  lemma WalkComplete(n: Node, path: Path, base: string, rootReal: Option<Path>)
    requires !Walk(n, path, base, rootReal).aborted
    ensures forall v :: v in Preorder(n, path, base) ==> !StepOf(v, rootReal).Fail?
    ensures forall v :: v in Preorder(n, path, base) && StepOf(v, rootReal).Emit? ==>
      StepOf(v, rootReal).entry in Walk(n, path, base, rootReal).entries
  {
    WalkIsRun(n, path, base, rootReal);
    RunComplete(Preorder(n, path, base), rootReal);
  }

  /**
   * Every link reached that `isFile` rejects and whose real target is inside the
   * real root has its link entry in the archive of a walk that completes.
   */
  lemma WalkArchivesLinksInside(n: Node, path: Path, base: string, rootReal: Option<Path>)
    requires !Walk(n, path, base, rootReal).aborted
    ensures forall v :: (v in Preorder(n, path, base) && v.node.Symlink? && !IsFile(v.node)
                         && v.node.target.ToOther? && rootReal.Some? && StartsWith(v.node.target.resolved, rootReal.value)) ==>
      Entry(PathString(v.path), SymbolicLink(LinkName(rootReal.value, v.node.target.resolved)))
        in Walk(n, path, base, rootReal).entries
  {
    WalkComplete(n, path, base, rootReal);
  }

  /**
   * A node whose step throws ends the walk: what was written is exactly what the
   * visits up to it wrote.
   */
  lemma WalkStopsAtFailure(n: Node, path: Path, base: string, rootReal: Option<Path>, k: nat)
    requires k < |Preorder(n, path, base)| && StepOf(Preorder(n, path, base)[k], rootReal).Fail?
    ensures Walk(n, path, base, rootReal).aborted
    ensures Walk(n, path, base, rootReal) == Run(Preorder(n, path, base)[..k + 1], rootReal)
  {
    WalkIsRun(n, path, base, rootReal);
    RunStopsAtFailure(Preorder(n, path, base), k, rootReal);
  }

  /** A directory's own entry comes before anything below it. */
  lemma DirectoryEntryFirst(n: Node, path: Path, base: string, rootReal: Option<Path>)
    requires n.Dir?
    ensures Walk(n, path, base, rootReal).entries != []
    ensures Walk(n, path, base, rootReal).entries[0] == Entry(EntryName(path, base), Directory)
  {
  }

  /** A directory whose listing is null writes only its own entry and does not fail. */
  lemma UnavailableListing(name: string, path: Path, base: string, rootReal: Option<Path>)
    ensures Walk(Dir(name, Unavailable), path, base, rootReal)
            == Walked([Entry(EntryName(path, base), Directory)], [EnteringDirectory(path)], false)
  {
  }

  lemma {:induction false} WalkChildrenAppend(a: seq<Node>, b: seq<Node>, parent: Path, base: string, rootReal: Option<Path>)
    ensures WalkChildren(a + b, parent, base, rootReal)
            == Then(WalkChildren(a, parent, base, rootReal), WalkChildren(b, parent, base, rootReal))
  {
    if a == [] {
      assert a + b == b;
    } else {
      assert (a + b)[0] == a[0];
      assert (a + b)[1..] == a[1..] + b;
      WalkChildrenAppend(a[1..], b, parent, base, rootReal);
      ThenAssoc(Walk(a[0], parent + [a[0].name], base, rootReal),
                WalkChildren(a[1..], parent, base, rootReal), WalkChildren(b, parent, base, rootReal));
    }
  }

  /** A skipped link writes nothing, logs one line and lets the walk go on. */
  lemma SkippedLinkWritesNothing(n: Node, path: Path, base: string, root: Path)
    requires n.Symlink?
    requires n.target.Missing? || (n.target.ToOther? && !StartsWith(n.target.resolved, root))
    ensures Walk(n, path, base, Some(root)).entries == []
    ensures !Walk(n, path, base, Some(root)).aborted
    ensures |Walk(n, path, base, Some(root)).log| == 1
  {
  }

  /**
   * A link that is skipped (its target is missing, or lies outside the real root)
   * writes nothing and does not stop the loop: the entries and the outcome are
   * those of the listing without it.
   */
  lemma SkippedLinkLeavesSiblings(cs: seq<Node>, i: nat, parent: Path, base: string, root: Path)
    requires i < |cs| && cs[i].Symlink?
    requires cs[i].target.Missing? || (cs[i].target.ToOther? && !StartsWith(cs[i].target.resolved, root))
    ensures WalkChildren(cs[..i] + cs[i + 1..], parent, base, Some(root)).entries
            == WalkChildren(cs, parent, base, Some(root)).entries
    ensures WalkChildren(cs[..i] + cs[i + 1..], parent, base, Some(root)).aborted
            == WalkChildren(cs, parent, base, Some(root)).aborted
  {
    var r := Some(root);
    var rest := cs[i + 1..];
    var before := WalkChildren(cs[..i], parent, base, r);
    var skipped := Walk(cs[i], parent + [cs[i].name], base, r);
    var after := WalkChildren(rest, parent, base, r);
    SkippedLinkWritesNothing(cs[i], parent + [cs[i].name], base, root);
    assert WalkChildren(cs, parent, base, r) == Then(before, Then(skipped, after)) by {
      assert cs == cs[..i] + ([cs[i]] + rest);
      WalkChildrenAppend(cs[..i], [cs[i]] + rest, parent, base, r);
      assert ([cs[i]] + rest)[1..] == rest;
    }
    WalkChildrenAppend(cs[..i], rest, parent, base, r);
    assert Then(skipped, after).entries == after.entries by {
      assert [] + after.entries == after.entries;
    }
  }

  /** The body of the loop in the method form: one more child of the listing. */
  lemma WalkChildrenSnoc(cs: seq<Node>, i: nat, parent: Path, base: string, rootReal: Option<Path>)
    requires i < |cs|
    ensures WalkChildren(cs[..i + 1], parent, base, rootReal)
            == Then(WalkChildren(cs[..i], parent, base, rootReal), Walk(cs[i], parent + [cs[i].name], base, rootReal))
  {
    assert cs[..i + 1] == cs[..i] + [cs[i]];
    WalkChildrenAppend(cs[..i], [cs[i]], parent, base, rootReal);
    assert [cs[i]][1..] == [];
  }

  /** Once a child's walk aborts, the children after it are not walked. */
  lemma WalkChildrenStops(cs: seq<Node>, i: nat, parent: Path, base: string, rootReal: Option<Path>)
    requires i < |cs| && WalkChildren(cs[..i + 1], parent, base, rootReal).aborted
    ensures WalkChildren(cs, parent, base, rootReal) == WalkChildren(cs[..i + 1], parent, base, rootReal)
  {
    WalkChildrenAppend(cs[..i + 1], cs[i + 1..], parent, base, rootReal);
    assert cs[..i + 1] + cs[i + 1..] == cs;
  }

  /** The loop over a listing throws exactly when the walk of one of the children throws. */
  lemma {:induction false} WalkChildrenAborts(cs: seq<Node>, parent: Path, base: string, rootReal: Option<Path>)
    ensures WalkChildren(cs, parent, base, rootReal).aborted <==>
      exists i :: 0 <= i < |cs| && Walk(cs[i], parent + [cs[i].name], base, rootReal).aborted
  {
    if cs != [] {
      var first := Walk(cs[0], parent + [cs[0].name], base, rootReal);
      var rest := cs[1..];
      WalkChildrenAborts(rest, parent, base, rootReal);
      assert WalkChildren(cs, parent, base, rootReal) == Then(first, WalkChildren(rest, parent, base, rootReal));
      if first.aborted {
        assert Walk(cs[0], parent + [cs[0].name], base, rootReal).aborted;
      } else if WalkChildren(rest, parent, base, rootReal).aborted {
        var j :| 0 <= j < |rest| && Walk(rest[j], parent + [rest[j].name], base, rootReal).aborted;
        assert cs[j + 1] == rest[j];
      } else {
        forall i | 0 < i < |cs| ensures cs[i] == rest[i - 1] { }
      }
    }
  }

  /**
   * A top-level directory `/d` holding a file `f`, an empty directory `sub`, a
   * link `l` to `f`, a link `e` to a regular file anywhere, a link `u` to `o`
   * outside `/d`, and a link `s` to `/d` itself. Children are named under the
   * root's own name; both links to regular files become file entries, `u` is
   * skipped, and `s` keeps its absolute path as its name and "." as its target.
   */
  lemma ArchiveExample(d: Component, f: Component, sub: Component, l: Component, e: Component,
                       u: Component, s: Component, n: nat, ext: Path, m: nat, o: Path)
    requires !StartsWith(o, [d])
    ensures var b := d + "/";
      var w := Archive(Dir(d, Listed([File(f, n), Dir(sub, Listed([])), Symlink(l, ToFile([d, f], n)),
                                      Symlink(e, ToFile(ext, m)), Symlink(u, ToOther(o)), Symlink(s, ToOther([d]))])),
                       [d], Some([d]));
      && !w.aborted
      && w.entries == [Entry(d, Directory), Entry(b + f, Regular(n)), Entry(b + sub, Directory),
                       Entry(b + l, Regular(n)), Entry(b + e, Regular(m)), Entry("/" + (b + s), SymbolicLink("."))]
  {
    var p, b, r := [d], d + "/", Some([d]);
    var links := [Symlink(l, ToFile([d, f], n)), Symlink(e, ToFile(ext, m)), Symlink(u, ToOther(o)), Symlink(s, ToOther([d]))];
    var dir, file := Dir(sub, Listed([])), File(f, n);
    var eSelf := Entry("/" + (b + s), SymbolicLink("."));
    ExampleLinks(d, f, l, e, u, s, n, ext, m, o);
    assert WalkChildren([dir] + links, p, b, r).entries
           == [Entry(b + sub, Directory), Entry(b + l, Regular(n)), Entry(b + e, Regular(m)), eSelf]
           && !WalkChildren([dir] + links, p, b, r).aborted by {
      WalkChildrenCons(dir, links, p, b, r);
    }
    var t0 := WalkChildren([file] + ([dir] + links), p, b, r);
    WalkChildrenCons(file, [dir] + links, p, b, r);
    PrependToFour(Entry(b + f, Regular(n)), Entry(b + sub, Directory), Entry(b + l, Regular(n)),
                  Entry(b + e, Regular(m)), eSelf);
    assert "" + d == d;
    assert ChildBase(p, "") == b;
    var root := Dir(d, Listed([file] + ([dir] + links)));
    assert Encode(root, p, "", r).entry == Entry(d, Directory);
    assert Archive(root, p, r) == Then(Single(Encode(root, p, "", r)), t0);
    assert Archive(root, p, r).entries == [Entry(d, Directory)] + t0.entries;
    PrependToFive(Entry(d, Directory), Entry(b + f, Regular(n)), Entry(b + sub, Directory),
                  Entry(b + l, Regular(n)), Entry(b + e, Regular(m)), eSelf);
    PrependTwoToFour(file, dir, links[0], links[1], links[2], links[3]);
  }

  /** The four links of the example above: two become file entries, one is skipped, one is archived. */
  lemma ExampleLinks(d: Component, f: Component, l: Component, e: Component, u: Component, s: Component,
                     n: nat, ext: Path, m: nat, o: Path)
    requires !StartsWith(o, [d])
    ensures var b := d + "/";
      var w := WalkChildren([Symlink(l, ToFile([d, f], n)), Symlink(e, ToFile(ext, m)),
                             Symlink(u, ToOther(o)), Symlink(s, ToOther([d]))], [d], b, Some([d]));
      && !w.aborted
      && w.entries == [Entry(b + l, Regular(n)), Entry(b + e, Regular(m)), Entry("/" + (b + s), SymbolicLink("."))]
  {
    var p, b, r := [d], d + "/", Some([d]);
    var self, up := Symlink(s, ToOther([d])), Symlink(u, ToOther(o));
    var escape, link := Symlink(e, ToFile(ext, m)), Symlink(l, ToFile([d, f], n));
    var eSelf := Entry("/" + (b + s), SymbolicLink("."));
    assert WalkChildren([self], p, b, r).entries == [eSelf] && !WalkChildren([self], p, b, r).aborted by {
      assert p + [s] == [d, s] && [d, s][1..] == [s];
      assert Join([s]) == s;
      assert PathString([d, s]) == "/" + (b + s);
      assert LinkName(p, p) == "." by {
        assert Relativize(p, p) == [];
      }
      assert Encode(self, p + [s], b, r) == Emit(eSelf, AddingSymlink(p + [s], "."));
      WalkChildrenCons(self, [], p, b, r);
    }
    assert WalkChildren([up, self], p, b, r).entries == [eSelf] && !WalkChildren([up, self], p, b, r).aborted by {
      WalkChildrenCons(up, [self], p, b, r);
    }
    assert WalkChildren([escape, up, self], p, b, r).entries == [Entry(b + e, Regular(m)), eSelf]
           && !WalkChildren([escape, up, self], p, b, r).aborted by {
      WalkChildrenCons(escape, [up, self], p, b, r);
    }
    assert Walk(link, p + [l], b, r) == Walked([Entry(b + l, Regular(n))], [AddingFile(p + [l])], false);
    WalkChildrenCons(link, [escape, up, self], p, b, r);
  }

  lemma PrependToFour<T>(x: T, a: T, b: T, c: T, d: T)
    ensures [x] + [a, b, c, d] == [x, a, b, c, d]
  {
  }

  lemma PrependTwoToFour<T>(x: T, y: T, a: T, b: T, c: T, d: T)
    ensures [x] + ([y] + [a, b, c, d]) == [x, y, a, b, c, d]
  {
  }

  lemma PrependToFive<T>(x: T, a: T, b: T, c: T, d: T, e: T)
    ensures [x] + [a, b, c, d, e] == [x, a, b, c, d, e]
  {
  }

  /** One step of the listing loop, for the scenario above. */
  lemma WalkChildrenCons(c: Node, rest: seq<Node>, parent: Path, base: string, rootReal: Option<Path>)
    ensures WalkChildren([c] + rest, parent, base, rootReal)
      == Then(Walk(c, parent + [c.name], base, rootReal), WalkChildren(rest, parent, base, rootReal))
  {
    assert ([c] + rest)[1..] == rest;
  }
}
