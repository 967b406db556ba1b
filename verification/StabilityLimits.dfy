/** Where read stability ends: runs of the admission protocol whose overlay answers change or disagree. */
module StabilityLimits {
  import opened Wrappers
  import opened ByteStrings
  import opened ByteRanges
  import opened VfsPaths
  import opened Membership
  import opened TreeContract
  import opened TreeLookup
  import opened Staging
  import opened AdmissionProtocol
  import opened AdmissionLimits
  import opened Overlay
  import opened ReadStability

  /// Single steps

  /** A mutator's effect on one path. */
  lemma Effect(mode: Mode, r: iset<State>, s: State, m: nat, path: VfsPath, content: Option<Staging.File>) returns (t: State)
    requires Closed(mode, r) && s in r && m !in s.mutators
    ensures t in r
    ensures t == s.(clock := s.clock + 1,
                    disk := Changed(s.disk, path, content),
                    lastHost := s.lastHost[path := s.clock],
                    mutators := s.mutators[m := Mutator(s.clock, {path})])
  {
    OneChange(s.disk, path, content);
    OneTime(s.lastHost, s.clock, path, content);
    var e := HostEffect(m, One(path, content));
    t := Apply(mode, s, e);
    Next(mode, r, s, e, t);
  }

  /** A mutator marks the one path it changed. */
  lemma MarkIt(mode: Mode, r: iset<State>, s: State, m: nat, path: VfsPath, staged: Staged, revision: nat) returns (t: State)
    requires Closed(mode, r) && s in r && m in s.mutators && s.mutators[m].todo == {path} && !Live(mode, s, revision)
    requires mode.restat ==> Describes(staged, Content(s.disk, path))
    ensures t in r
    ensures t == s.(clock := s.clock + 1,
                    staging := Mark(s.staging, path, staged, revision, s.clock),
                    mutators := s.mutators - {m},
                    marked := s.marked + {Marked(path, s.mutators[m].hostAt, s.clock)})
  {
    var e := MarkPath(m, path, staged, revision);
    t := Apply(mode, s, e);
    Next(mode, r, s, e, t);
  }

  /** One whole mutation, by a mutator that does nothing else. */
  lemma Mutate(mode: Mode, r: iset<State>, s: State, path: VfsPath, content: Option<Staging.File>, staged: Staged, revision: nat)
      returns (t: State)
    requires Closed(mode, r) && s in r && s.mutators == map[] && !Live(mode, s, revision) && Describes(staged, content)
    ensures t in r
    ensures t == s.(clock := s.clock + 2,
                    disk := Changed(s.disk, path, content),
                    lastHost := s.lastHost[path := s.clock],
                    staging := Mark(s.staging, path, staged, revision, s.clock + 1),
                    marked := s.marked + {Marked(path, s.clock, s.clock + 1)})
  {
    var a := Effect(mode, r, s, 0, path, content);
    assert Live(mode, a, revision) == Live(mode, s, revision);
    assert Content(a.disk, path) == content;
    t := MarkIt(mode, r, a, 0, path, staged, revision);
    assert t.mutators == map[];
  }

  /** Snapshot and request of everything staged. */
  lemma SnapAndRequest(mode: Mode, r: iset<State>, s: State, p: VfsPath) returns (t: State)
    requires Closed(mode, r) && s in r && s.flights == map[] && s.commits == map[] && p in s.staging.entries
    ensures t in r
    ensures t == s.(clock := s.clock + 2,
                    flights := map[1 := Flight(Snapshot(s.staging), s.clock)],
                    commits := map[1 := Commit(s.clock + 1, s.lastHost.Keys, map[], false)])
  {
    var a := Apply(mode, s, Snap(1));
    Next(mode, r, s, Snap(1), a);
    t := Apply(mode, a, Receive(1));
    Next(mode, r, a, Receive(1), t);
    assert t.flights == map[1 := Flight(Snapshot(s.staging), s.clock)];
    assert t.commits == map[1 := Commit(s.clock + 1, s.lastHost.Keys, map[], false)];
  }

  /** The daemon reads one more path. */
  lemma Look(mode: Mode, r: iset<State>, s: State, c: Commit, p: VfsPath) returns (t: State)
    requires Closed(mode, r) && s in r && s.commits == map[1 := c] && !c.published && p !in c.seen
    ensures t in r
    ensures t == s.(clock := s.clock + 1,
                    commits := map[1 := c.(seen := c.seen[p := Read(s.clock, Content(s.disk, p))])])
  {
    t := Apply(mode, s, ReadPath(1, p));
    Next(mode, r, s, ReadPath(1, p), t);
    assert t.commits == map[1 := c.(seen := c.seen[p := Read(s.clock, Content(s.disk, p))])];
  }

  lemma PublishIt(mode: Mode, r: iset<State>, s: State, c: Commit) returns (t: State)
    requires Closed(mode, r) && s in r && s.commits == map[1 := c] && !c.published && c.scope <= c.seen.Keys
    ensures t in r
    ensures t == s.(clock := s.clock + 1, commits := map[1 := c.(published := true)], graph := s.graph + c.seen)
  {
    t := Apply(mode, s, Publish(1));
    Next(mode, r, s, Publish(1), t);
    assert t.commits == map[1 := c.(published := true)];
  }

  /// A snapshot of one file

  function OneArtifact(file: Staging.File): TreeArtifact {
    TreeArtifact(seq(16, _ => 0), Blob(seq(32, _ => 0), false), |file|, 0)
  }

  lemma OneFileTree(sha: Bytes -> Hash256, path: VfsPath, file: Staging.File) returns (tree: CachedTree, store: Store)
    requires path != ROOT
    ensures Validated(tree, sha) && Serves(tree, store, One(path, file))
  {
    var byPath := One(path, OneArtifact(file));
    AncestorIsPrefix(path, path);
    assert |byPath| == 1;
    var directories := IndexExists(sha, byPath, 0, 0);
    tree := CachedTree(Binding([], [], 0, 0, []), 0, [], byPath, directories);
    store := _ => Ok(file);
  }

  /// A removed file that comes back as a directory

  lemma ParentIsNotChild(p: VfsPath, n: VfsName)
    ensures Join(p, n) != p && Join(p, n) != ROOT && IsAncestorOf(p, Join(p, n))
  {
    JoinThenParent(p, n);
    AncestorSplits(p, Join(p, n));
  }

  /** `p` is removed, a file is created below it, and both are staged. */
  lemma RemoveThenCreateBelow(mode: Mode, r: iset<State>, p: VfsPath, n: VfsName) returns (t: State)
    requires Closed(mode, r) && Init(One(p, [1])) in r
    ensures t in r && t.flights == map[] && t.commits == map[] && t.graph == map[] && t.mutators == map[]
    ensures t.disk == One(Join(p, n), [2]) && t.lastHost.Keys == {p, Join(p, n)}
    ensures t.staging.entries == One(p, StagedEntry(Removed, 7))[Join(p, n) := StagedEntry(WRITTEN, 8)]
  {
    ParentIsNotChild(p, n);
    var a := Mutate(mode, r, Init(One(p, [1])), p, None, Removed, 7);
    assert a.disk == map[];
    assert a.staging.entries == One(p, StagedEntry(Removed, 7));
    t := Mutate(mode, r, a, Join(p, n), Some([2]), WRITTEN, 8);
    assert t.disk == One(Join(p, n), [2]);
  }

  /** An admission that carries everything staged is published and not yet acknowledged. */
  ghost predicate Ready(s: State) {
    1 in s.flights && 1 in s.commits && s.commits[1].published && s.flights[1].pending == Snapshot(s.staging)
  }

  lemma OnlyChildPublished(s: State, p: VfsPath, child: VfsPath)
    requires p != child && s.graph.Keys == {p, child}
    requires s.graph[p].content == None && s.graph[child].content == Some([2])
    ensures Published(One(p, [1]), s) == One(child, [2])
  {
  }

  lemma DirectoryPublished(mode: Mode, r: iset<State>, p: VfsPath, n: VfsName) returns (t: State)
    requires Closed(mode, r) && Init(One(p, [1])) in r
    ensures t in r && Ready(t) && Published(One(p, [1]), t) == One(Join(p, n), [2])
    ensures p in t.staging.entries && t.staging.entries[p].staged == Removed
  {
    ParentIsNotChild(p, n);
    var child := Join(p, n);
    var a := RemoveThenCreateBelow(mode, r, p, n);
    var b := SnapAndRequest(mode, r, a, p);
    var c := Look(mode, r, b, b.commits[1], p);
    var d := Look(mode, r, c, c.commits[1], child);
    t := PublishIt(mode, r, d, d.commits[1]);
    OnlyChildPublished(t, p, child);
  }

  /** The acknowledgement clears everything and leaves the graph alone. */
  lemma Acknowledged(mode: Mode, start: map<VfsPath, Staging.File>, s: State) returns (t: State)
    requires Ready(s)
    ensures Moves(mode, s, Acknowledge(1, ADMISSION), t)
    ensures t.staging.entries == map[] && t.disk == s.disk && Published(start, t) == Published(start, s)
  {
    t := Apply(mode, s, Acknowledge(1, ADMISSION));
    UninterruptedClear(s.staging, ADMISSION);
  }

  /** A path above the one file of a snapshot exists, once nothing is staged for it. */
  lemma ExistsAsDirectory<R>(
    tree: CachedTree, sha: Bytes -> Hash256, store: Store, s: StagingState<R>, p: VfsPath, child: VfsPath, file: Staging.File)
    requires Validated(tree, sha) && Serves(tree, store, One(child, file)) && IsAncestorOf(p, child)
    ensures p in tree.directories
    ensures p !in s.entries ==> OverlayExists(TreeGraph(tree, store), s, p) == Ok(true)
  {
    assert child in One(child, file);
    DirectoryServed(tree, sha, One(child, file), p);
  }

  /**
   For any path: it is removed and a file created below it. Before the acknowledgement it does not exist;
   afterwards it does, as a directory. So a removal's answers are not stable there.
   */
  lemma RemovedFileComesBackAsDirectory(mode: Mode, sha: Bytes -> Hash256, p: VfsPath, n: VfsName, graph: Graph)
      returns (s: State, t: State, tree: CachedTree, store: Store)
    ensures Reachable(mode, One(p, [1]), s) && Moves(mode, s, Acknowledge(1, ADMISSION), t)
    ensures Validated(tree, sha) && Serves(tree, store, Published(One(p, [1]), t))
    ensures OverlayExists(graph, s.staging, p) == Ok(false)
    ensures OverlayExists(TreeGraph(tree, store), t.staging, p) == Ok(true)
  {
    ParentIsNotChild(p, n);
    var r := ReachableIsClosed(mode, One(p, [1]));
    s := DirectoryPublished(mode, r, p, n);
    t := Acknowledged(mode, One(p, [1]), s);
    tree, store := OneFileTree(sha, Join(p, n), [2]);
    ExistsAsDirectory(tree, sha, store, t.staging, p, Join(p, n), [2]);
  }

  /// A removed directory that still lists

  lemma RemoveBoth(mode: Mode, r: iset<State>, p: VfsPath, child: VfsPath) returns (t: State)
    requires Closed(mode, r) && Init(One(child, [2])) in r && p != child
    ensures t in r && Published(One(child, [2]), t) == One(child, [2])
    ensures p in t.staging.entries && t.staging.entries[p].staged == Removed
  {
    var a := Mutate(mode, r, Init(One(child, [2])), child, None, Removed, 7);
    assert a.staging.entries == One(child, StagedEntry(Removed, 7));
    t := Mutate(mode, r, a, p, None, Removed, 8);
  }

  /**
   For any path: the one file below it is removed, then the directory itself. Nothing is admitted yet, so
   the graph still has the directory: the overlay lists it, and says that it does not exist.
   */
  lemma RemovedDirectoryListsAndDoesNotExist(mode: Mode, sha: Bytes -> Hash256, p: VfsPath, n: VfsName)
      returns (s: State, tree: CachedTree, store: Store)
    ensures Reachable(mode, One(Join(p, n), [2]), s)
    ensures Validated(tree, sha) && Serves(tree, store, Published(One(Join(p, n), [2]), s))
    ensures ListingAnswers(TreeGraph(tree, store), s.staging, p)
    ensures OverlayExists(TreeGraph(tree, store), s.staging, p) == Ok(false)
  {
    ParentIsNotChild(p, n);
    var child := Join(p, n);
    var start: map<VfsPath, Staging.File> := One(child, [2]);
    var r := ReachableIsClosed(mode, start);
    s := RemoveBoth(mode, r, p, child);
    tree, store := OneFileTree(sha, child, [2]);
    ExistsAsDirectory(tree, sha, store, s.staging, p, child, [2]);
    RemovedDirectoryStillLists(tree, store, s.staging, p);
  }

  /// A mark that is stale

  const LONG: Staged := Present(FileStat([1, 2], 420, 0))

  /** Two writers overlap: the one that wrote first looked at its file before, and marks it after, the second. */
  lemma StaleMark(mode: Mode, r: iset<State>, p: VfsPath) returns (t: State)
    requires Closed(mode, r) && Init(map[]) in r && !mode.restat
    ensures t in r && t.flights == map[] && t.commits == map[] && t.graph == map[] && t.mutators == map[]
    ensures t.disk == One(p, [1, 2]) && t.lastHost.Keys == {p}
    ensures t.staging.entries == One(p, StagedEntry(WRITTEN, 8))
  {
    var a := Effect(mode, r, Init(map[]), 0, p, Some([1]));
    var b := Effect(mode, r, a, 1, p, Some([1, 2]));
    assert b.disk == One(p, [1, 2]);
    var c := MarkIt(mode, r, b, 1, p, LONG, 7);
    assert c.staging.entries == One(p, StagedEntry(LONG, 7));
    t := MarkIt(mode, r, c, 0, p, WRITTEN, 8);
    assert t.staging.entries == One(p, StagedEntry(WRITTEN, 8));
    assert t.mutators == map[];
  }

  lemma StalePublished(mode: Mode, r: iset<State>, p: VfsPath) returns (t: State)
    requires Closed(mode, r) && Init(map[]) in r && !mode.restat
    ensures t in r && Ready(t) && Published(map[], t) == One(p, [1, 2]) && t.disk == One(p, [1, 2])
    ensures p in t.staging.entries && t.staging.entries[p].staged == WRITTEN
  {
    var a := StaleMark(mode, r, p);
    var b := SnapAndRequest(mode, r, a, p);
    var c := Look(mode, r, b, b.commits[1], p);
    t := PublishIt(mode, r, c, c.commits[1]);
    assert t.graph.Keys == {p} && t.graph[p].content == Some([1, 2]);
  }

  lemma CutShort<R>(graph: Graph, s: StagingState<R>, disk: map<VfsPath, Staging.File>, p: VfsPath)
    requires p in disk && disk[p] == [1, 2] && p in s.entries && s.entries[p].staged == WRITTEN
    ensures OverlayReadFile(graph, s, disk, p) == Ok([1])
  {
    StagedAnswers(graph, s, disk, p, 0, 0);
    assert Range([1, 2], 0, 1) == [1];
  }

  lemma ReadWhole<R>(tree: CachedTree, store: Store, s: StagingState<R>, disk: map<VfsPath, Staging.File>, p: VfsPath)
    requires Serves(tree, store, One(p, [1, 2])) && p !in s.entries
    ensures OverlayReadFile(TreeGraph(tree, store), s, disk, p) == Ok([1, 2])
  {
    assert p in One(p, [1, 2]);
    HeldFile(tree, store, p, [1, 2], 0, 0);
  }

  /**
   Were another host effect to come between looking at a file and marking it, the staged length could be
   out of date: the overlay would cut the file short until the admission, and answer it whole afterwards.
   */
  lemma StaleMarkCutsTheFile(mode: Mode, sha: Bytes -> Hash256, p: VfsPath, graph: Graph)
      returns (s: State, t: State, tree: CachedTree, store: Store)
    requires !mode.restat && p != ROOT
    ensures Reachable(mode, map[], s) && Moves(mode, s, Acknowledge(1, ADMISSION), t)
    ensures Validated(tree, sha) && Serves(tree, store, Published(map[], t))
    ensures OverlayReadFile(graph, s.staging, s.disk, p) == Ok([1])
    ensures OverlayReadFile(TreeGraph(tree, store), t.staging, t.disk, p) == Ok([1, 2])
  {
    var r := ReachableIsClosed(mode, map[]);
    s := StalePublished(mode, r, p);
    t := Acknowledged(mode, map[], s);
    tree, store := OneFileTree(sha, p, [1, 2]);
    CutShort(graph, s.staging, s.disk, p);
    ReadWhole(tree, store, t.staging, t.disk, p);
  }
}
