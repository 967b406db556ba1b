/** The write-through overlay (writer.rs): graph truth with the writer's staged paths in front of it. */
module Overlay {
  import opened Wrappers
  import opened ByteStrings
  import opened ByteRanges
  import opened VfsPaths
  import opened Membership
  import opened TreeContract
  import opened TreeLookup
  import opened Staging
  import opened DaemonProvider

  datatype Graph = Graph(
    readFile: VfsPath -> VfsResult<Bytes>,
    readRange: (VfsPath, u64, u64) -> VfsResult<Bytes>,
    stat: VfsPath -> VfsResult<VirtualStat>,
    readDir: VfsPath -> VfsResult<seq<DirEntry>>,
    existing: VfsPath -> VfsResult<bool>)

  function StagedAt<R>(s: StagingState<R>, path: VfsPath): Option<Staged> {
    if path in s.entries then Some(s.entries[path].staged) else None
  }

  /// Single paths

  /** `read_staged`: the working copy answers only for a path this writer staged as present. */
  function ReadStaged<R>(s: StagingState<R>, disk: map<VfsPath, Staging.File>, path: VfsPath, offset: u64, len: u64)
      : VfsResult<Bytes>
  {
    if !(StagedAt(s, path).Some? && StagedAt(s, path).value.Present?) then Err(NotFound)
    else if path !in disk then Err(Io)
    else Ok(SliceStaged(disk[path], offset, len))
  }

  /**
   `read_file` looks at the staging area twice: once to choose, and once more in `read_staged`. The two looks
   may see different states.
   */
  function ReadFileLooking<R>(
    graph: Graph, first: StagingState<R>, second: StagingState<R>, disk: map<VfsPath, Staging.File>, path: VfsPath)
      : VfsResult<Bytes>
  {
    match StagedAt(first, path)
    case Some(Present(stat)) => ReadStaged(second, disk, path, 0, stat.size)
    case Some(Removed) => Err(NotFound)
    case None => graph.readFile(path)
  }

  function ReadRangeLooking<R>(
    graph: Graph, first: StagingState<R>, second: StagingState<R>, disk: map<VfsPath, Staging.File>, path: VfsPath,
    offset: u64, len: u64)
      : VfsResult<Bytes>
  {
    match StagedAt(first, path)
    case Some(Present(_)) => ReadStaged(second, disk, path, offset, len)
    case Some(Removed) => Err(NotFound)
    case None => graph.readRange(path, offset, len)
  }

  /** The overlay's answer at one instant: both looks see the same state. */
  function OverlayReadFile<R>(graph: Graph, s: StagingState<R>, disk: map<VfsPath, Staging.File>, path: VfsPath)
      : VfsResult<Bytes>
  {
    ReadFileLooking(graph, s, s, disk, path)
  }

  function OverlayReadRange<R>(
    graph: Graph, s: StagingState<R>, disk: map<VfsPath, Staging.File>, path: VfsPath, offset: u64, len: u64)
      : VfsResult<Bytes>
  {
    ReadRangeLooking(graph, s, s, disk, path, offset, len)
  }

  function OverlayExists<R>(graph: Graph, s: StagingState<R>, path: VfsPath): VfsResult<bool> {
    match StagedAt(s, path)
    case Some(Present(_)) => Ok(true)
    case Some(Removed) => Ok(false)
    case None => graph.existing(path)
  }

  /// Listings

  /** A direct child is a descendant whose remainder holds no separator; the remainder is its name. */
  lemma DirectChild(dir: VfsPath, path: VfsPath, name: VfsName)
    ensures path == Join(dir, name) <==>
            StripDirPrefix(dir, path).Some? && SLASH !in StripDirPrefix(dir, path).value && StripDirPrefix(dir, path).value == name
  {
    ChildIsUnique(dir, path, name);
    JoinThenParent(dir, name);
    AncestorSplits(dir, Join(dir, name));
    if IsAncestorOf(dir, path) {
      FirstOfRest(dir, path);
      AncestorIsPrefix(Join(dir, name), path);
    }
  }

  function TypeOf(stat: VirtualStat): FileType {
    if stat.isDir then FileType.Directory else if stat.isSymlink then FileType.Symlink else FileType.File
  }

  /** `names` are exactly the children of `dir` among `paths` staged as `present` says, each once. */
  ghost predicate ChildrenAmong<R>(
    names: seq<Bytes>, s: StagingState<R>, dir: VfsPath, paths: seq<VfsPath>, present: bool)
  {
    && Distinct(names)
    && (forall k :: k in names ==> ValidName(k))
    && forall n: VfsName :: n in names <==> Join(dir, n) in paths && StagedAs(s, Join(dir, n), present)
  }

  predicate StagedAs<R>(s: StagingState<R>, path: VfsPath, present: bool) {
    path in s.entries && s.entries[path].staged.Present? == present
  }

  ghost predicate NoChild(dir: VfsPath, path: VfsPath) {
    forall n: VfsName :: path != Join(dir, n)
  }

  /** One more path that is not such a child changes nothing. */
  lemma SkipPath<R>(names: seq<Bytes>, s: StagingState<R>, dir: VfsPath, paths: seq<VfsPath>, present: bool, path: VfsPath)
    requires ChildrenAmong(names, s, dir, paths, present)
    requires !StagedAs(s, path, present) || NoChild(dir, path)
    ensures ChildrenAmong(names, s, dir, paths + [path], present)
  {
  }

  /** One more child adds its name. */
  lemma TakeChild<R>(names: seq<Bytes>, s: StagingState<R>, dir: VfsPath, paths: seq<VfsPath>, present: bool, name: VfsName)
    requires ChildrenAmong(names, s, dir, paths, present)
    requires Join(dir, name) !in paths && StagedAs(s, Join(dir, name), present)
    ensures ChildrenAmong(names + [name], s, dir, paths + [Join(dir, name)], present)
  {
    forall n: VfsName ensures n in names + [name] <==> Join(dir, n) in paths + [Join(dir, name)] && StagedAs(s, Join(dir, n), present) {
      JoinThenParent(dir, n);
      JoinThenParent(dir, name);
    }
  }

  predicate Typed<R>(s: StagingState<R>, dir: VfsPath, entry: DirEntry) {
    match StagedAt(s, Join(dir, entry.name))
    case Some(Present(stat)) =>
      && (entry.fileType == Directory <==> stat.isDir)
      && (entry.fileType == FileType.Symlink <==> stat.isSymlink && !stat.isDir)
      && (entry.fileType == FileType.File <==> !stat.isDir && !stat.isSymlink)
    case _ => false
  }

  predicate AllTyped<R>(s: StagingState<R>, dir: VfsPath, added: seq<DirEntry>) {
    forall k :: 0 <= k < |added| ==> Typed(s, dir, added[k])
  }

  lemma OneEntry<R>(s: StagingState<R>, dir: VfsPath, added: seq<DirEntry>, entry: DirEntry)
    requires AllTyped(s, dir, added) && Typed(s, dir, entry)
    ensures AllTyped(s, dir, added + [entry]) && EntryNames(added + [entry]) == EntryNames(added) + [entry.name]
  {
  }

  /** Both lists of `staged_children`, for the paths looked at so far. */
  ghost predicate StagedLists<R>(added: seq<Bytes>, removed: seq<Bytes>, s: StagingState<R>, dir: VfsPath, paths: seq<VfsPath>) {
    ChildrenAmong(added, s, dir, paths, true) && ChildrenAmong(removed, s, dir, paths, false)
  }

  lemma PassOver<R>(added: seq<Bytes>, removed: seq<Bytes>, s: StagingState<R>, dir: VfsPath, paths: seq<VfsPath>, path: VfsPath)
    requires StagedLists(added, removed, s, dir, paths)
    requires StripDirPrefix(dir, path).None? || SLASH in StripDirPrefix(dir, path).value
    ensures StagedLists(added, removed, s, dir, paths + [path])
  {
    forall n: VfsName ensures path != Join(dir, n) { DirectChild(dir, path, n); }
    SkipPath(added, s, dir, paths, true, path);
    SkipPath(removed, s, dir, paths, false, path);
  }

  lemma ListChild<R>(added: seq<Bytes>, removed: seq<Bytes>, s: StagingState<R>, dir: VfsPath, paths: seq<VfsPath>, name: VfsName)
    requires StagedLists(added, removed, s, dir, paths)
    requires Join(dir, name) in s.entries && Join(dir, name) !in paths
    ensures if s.entries[Join(dir, name)].staged.Present?
            then StagedLists(added + [name], removed, s, dir, paths + [Join(dir, name)])
            else StagedLists(added, removed + [name], s, dir, paths + [Join(dir, name)])
  {
    var present := s.entries[Join(dir, name)].staged.Present?;
    TakeChild(if present then added else removed, s, dir, paths, present, name);
    SkipPath(if present then removed else added, s, dir, paths, !present, Join(dir, name));
  }

  /** Names of the direct children staged as present, with their types, and of those staged as removed. */
  method StagedChildren<R>(s: StagingState<R>, dir: VfsPath) returns (added: seq<DirEntry>, removed: seq<VfsName>)
    ensures StagedLists(EntryNames(added), removed, s, dir, StagedPaths(s))
    ensures AllTyped(s, dir, added)
  {
    var paths := StagedPaths(s);
    added, removed := [], [];
    var i := 0;
    while i < |paths|
      invariant 0 <= i <= |paths|
      invariant StagedLists(EntryNames(added), removed, s, dir, paths[..i])
      invariant AllTyped(s, dir, added)
    {
      var path := paths[i];
      NextPath(paths, i);
      var remainder := StripDirPrefix(dir, path);
      if remainder.None? || SLASH in remainder.value {
        PassOver(EntryNames(added), removed, s, dir, paths[..i], path);
      } else {
        var name := ChildName(dir, path);
        ListChild(EntryNames(added), removed, s, dir, paths[..i], name);
        match s.entries[path].staged {
          case Present(stat) =>
            var entry := DirEntry(name, TypeOf(stat));
            OneEntry(s, dir, added, entry);
            added := added + [entry];
          case Removed =>
            removed := removed + [name];
        }
      }
      i := i + 1;
    }
    assert paths[..i] == paths;
  }

  lemma NextPath(paths: seq<VfsPath>, i: nat)
    requires Distinct(paths) && i < |paths|
    ensures paths[i] in paths && paths[i] !in paths[..i]
    ensures paths[..i + 1] == paths[..i] + [paths[i]]
  {
  }

  /** The remainder of a direct child is always a valid name. */
  function ChildName(dir: VfsPath, path: VfsPath): (name: VfsName)
    requires StripDirPrefix(dir, path).Some? && SLASH !in StripDirPrefix(dir, path).value
    ensures path == Join(dir, name) && NameFromBytes(StripDirPrefix(dir, path).value) == Ok(name)
  {
    FirstOfRest(dir, path);
    DirectChild(dir, path, StripDirPrefix(dir, path).value);
    StripDirPrefix(dir, path).value
  }

  /** What a listing provider owes: it lists exactly the children that exist, each once. */
  ghost predicate Coherent(graph: Graph) {
    && (forall dir: VfsPath, n: VfsName ::
          graph.existing(Join(dir, n)) == Ok(true) <==> ListedIn(graph.readDir(dir), n))
    && forall dir: VfsPath :: graph.readDir(dir).Ok? ==> Distinct(EntryNames(graph.readDir(dir).value))
  }

  predicate ListedIn(listing: VfsResult<seq<DirEntry>>, name: Bytes) {
    listing.Ok? && name in EntryNames(listing.value)
  }

  function Retain(entries: seq<DirEntry>, removed: seq<Bytes>): (r: seq<DirEntry>)
    ensures forall n :: n in EntryNames(r) <==> n in EntryNames(entries) && n !in removed
    ensures Distinct(EntryNames(entries)) ==> Distinct(EntryNames(r))
    ensures forall e :: e in r ==> e in entries
  {
    if entries == [] then []
    else
      var init, last := entries[..|entries| - 1], entries[|entries| - 1];
      assert EntryNames(entries) == EntryNames(init) + [last.name];
      var kept := Retain(init, removed);
      if last.name in removed then kept
      else
        assert EntryNames(kept + [last]) == EntryNames(kept) + [last.name];
        kept + [last]
  }

  lemma {:induction false} RetainIff(entries: seq<DirEntry>, removed: seq<Bytes>, e: DirEntry)
    ensures e in Retain(entries, removed) <==> e in entries && e.name !in removed
  {
    if entries != [] { RetainIff(entries[..|entries| - 1], removed, e); }
  }

  /** What is retained keeps its order. */
  lemma RetainLast(entries: seq<DirEntry>, last: DirEntry, removed: seq<Bytes>)
    ensures Retain(entries + [last], removed) == Retain(entries, removed) + if last.name in removed then [] else [last]
  {
    assert (entries + [last])[..|entries|] == entries;
  }

  /** The graph's own entries, as they are and wherever they are not staged as removed. */
  ghost predicate KeepsListed<R>(listed: seq<DirEntry>, s: StagingState<R>, dir: VfsPath, r: seq<DirEntry>) {
    forall e :: e in listed ==> (e in r <==> !StagedAs(s, Join(dir, e.name), false))
  }

  lemma MergedKeepsListed<R>(
    listed: seq<DirEntry>, s: StagingState<R>, dir: VfsPath, added: seq<DirEntry>, removed: seq<Bytes>, r: seq<DirEntry>)
    requires StagedLists(EntryNames(added), removed, s, dir, StagedPaths(s))
    requires Retain(listed, removed) <= r && forall e :: e in r ==> e in Retain(listed, removed) || e in added
    ensures KeepsListed(listed, s, dir, r)
  {
    forall e | e in listed ensures e in r <==> !StagedAs(s, Join(dir, e.name), false) {
      RetainIff(listed, removed, e);
      assert Join(dir, e.name) in StagedPaths(s) <==> Join(dir, e.name) in s.entries;
      assert e.name in removed <==> StagedAs(s, Join(dir, e.name), false);
      if e in added { NameOf(added, e); }
      if e in Retain(listed, removed) { InPrefix(Retain(listed, removed), r, e); }
    }
  }

  lemma NameOf(entries: seq<DirEntry>, e: DirEntry)
    requires e in entries
    ensures e.name in EntryNames(entries)
  {
    var i :| 0 <= i < |entries| && entries[i] == e;
    assert EntryNames(entries)[i] == e.name;
  }

  lemma InPrefix(a: seq<DirEntry>, b: seq<DirEntry>, e: DirEntry)
    requires a <= b && e in a
    ensures e in b
  {
    var i :| 0 <= i < |a| && a[i] == e;
    assert b[i] == e;
  }

  /** Append each added entry whose name is not listed yet. */
  method Merge(entries: seq<DirEntry>, added: seq<DirEntry>) returns (r: seq<DirEntry>)
    ensures entries <= r && forall e :: e in r ==> e in entries || e in added
    ensures forall n :: n in EntryNames(r) <==> n in EntryNames(entries) || n in EntryNames(added)
    ensures Distinct(EntryNames(entries)) ==> Distinct(EntryNames(r))
  {
    r := entries;
    var i := 0;
    while i < |added|
      invariant 0 <= i <= |added| && entries <= r && forall e :: e in r ==> e in entries || e in added
      invariant forall n :: n in EntryNames(r) <==> n in EntryNames(entries) || n in EntryNames(added[..i])
      invariant Distinct(EntryNames(entries)) ==> Distinct(EntryNames(r))
    {
      assert EntryNames(added[..i + 1]) == EntryNames(added[..i]) + [added[i].name];
      if added[i].name !in EntryNames(r) {
        assert EntryNames(r + [added[i]]) == EntryNames(r) + [added[i].name];
        r := r + [added[i]];
      }
      i := i + 1;
    }
    assert added[..i] == added;
  }

  ghost predicate Exact<R>(graph: Graph, s: StagingState<R>, dir: VfsPath, names: seq<Bytes>) {
    && Distinct(names)
    && forall n: VfsName :: n in names <==> OverlayExists(graph, s, Join(dir, n)) == Ok(true)
  }

  /** The graph's names less the removed ones, plus the added ones, are exactly the names that exist. */
  lemma ListingIsExact<R>(
    graph: Graph, s: StagingState<R>, dir: VfsPath, listed: seq<Bytes>, added: seq<Bytes>, removed: seq<Bytes>, names: seq<Bytes>)
    requires Coherent(graph) && StagedLists(added, removed, s, dir, StagedPaths(s)) && Distinct(names)
    requires if graph.readDir(dir).Ok? then listed == EntryNames(graph.readDir(dir).value) else listed == []
    requires forall n :: n in names <==> (n in listed && n !in removed) || n in added
    ensures Exact(graph, s, dir, names)
  {
    forall n: VfsName ensures n in names <==> OverlayExists(graph, s, Join(dir, n)) == Ok(true) {
      var child := Join(dir, n);
      assert child in StagedPaths(s) <==> child in s.entries;
      assert n in added <==> StagedAs(s, child, true);
      assert n in removed <==> StagedAs(s, child, false);
      assert graph.existing(child) == Ok(true) <==> n in listed;
    }
  }

  predicate ListingAnswers<R>(graph: Graph, s: StagingState<R>, dir: VfsPath) {
    graph.readDir(dir).Ok? || (graph.readDir(dir) == Err(NotFound) && StagedAs(s, dir, true))
  }

  /**
   The overlay's listing. It fails exactly where the graph's does, except for a directory the graph has
   never seen that is staged here; otherwise, over a coherent graph, its names are exactly those whose
   path exists through the overlay, each once.
   */
  method OverlayReadDir<R>(graph: Graph, s: StagingState<R>, dir: VfsPath) returns (r: VfsResult<seq<DirEntry>>)
    ensures r.Ok? <==> ListingAnswers(graph, s, dir)
    ensures r.Err? ==> r == graph.readDir(dir)
    ensures r.Ok? ==> forall e :: e in r.value ==>
              (graph.readDir(dir).Ok? && e in graph.readDir(dir).value) || Typed(s, dir, e)
    ensures r.Ok? && graph.readDir(dir).Ok? ==> KeepsListed(graph.readDir(dir).value, s, dir, r.value)
    ensures r.Ok? && Coherent(graph) ==> Exact(graph, s, dir, EntryNames(r.value))
  {
    var added, removed := StagedChildren(s, dir);
    var listing := graph.readDir(dir);
    var entries := [];
    if listing.Ok? {
      entries := listing.value;
    } else if !(StagedAs(s, dir, true) && listing.error == NotFound) {
      return listing;
    }
    var retained := Retain(entries, removed);
    var merged := Merge(retained, added);
    assert forall e :: e in added ==> Typed(s, dir, e);
    MergedKeepsListed(entries, s, dir, added, removed, merged);
    if Coherent(graph) {
      ListingIsExact(graph, s, dir, EntryNames(entries), EntryNames(added), removed, EntryNames(merged));
    }
    return Ok(merged);
  }

  /// Over the daemon's snapshot

  /** A snapshot as the overlay's graph; `store` holds the bodies. */
  function TreeGraph(tree: CachedTree, store: Hash256 -> VfsResult<Bytes>): Graph {
    Graph(
      (path: VfsPath) => TreeRead(tree, store, Op.ReadFile, path),
      (path: VfsPath, offset: u64, len: u64) => TreeRead(tree, store, Op.ReadRange(offset, len), path),
      (path: VfsPath) => StatPath(tree, path),
      (path: VfsPath) => ListDir(tree, path),
      (path: VfsPath) => Ok(Exists(tree, path)))
  }

  /** Every validated snapshot is a coherent graph. */
  lemma TreeGraphIsCoherent(tree: CachedTree, sha: Bytes -> Hash256, store: Hash256 -> VfsResult<Bytes>)
    requires Validated(tree, sha)
    ensures Coherent(TreeGraph(tree, store))
  {
    var graph := TreeGraph(tree, store);
    forall dir: VfsPath, n: VfsName
      ensures graph.existing(Join(dir, n)) == Ok(true) <==> ListedIn(graph.readDir(dir), n)
    {
      TreeIsCoherent(tree, sha, dir, n);
    }
    forall dir: VfsPath | graph.readDir(dir).Ok? ensures Distinct(EntryNames(graph.readDir(dir).value)) {
      var names := EntryNames(tree.directories[dir].entries);
      assert Lists(tree.directories[dir].entries, dir, tree.byPath);
      SortedAreDistinct(names);
    }
  }

  /**
   A listing can answer for a directory that does not exist through the overlay: exactly when the
   directory itself is staged as removed while the graph still lists it.
   */
  lemma RemovedDirectoryStillLists<R>(tree: CachedTree, store: Hash256 -> VfsResult<Bytes>, s: StagingState<R>, dir: VfsPath)
    ensures var graph := TreeGraph(tree, store);
            ListingAnswers(graph, s, dir) && OverlayExists(graph, s, dir) == Ok(false) <==>
            StagedAs(s, dir, false) && dir in tree.directories
  {
  }
}
