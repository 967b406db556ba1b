/** Reads across an admission: the overlay over the protocol's own state, before and after an acknowledgement. */
module ReadStability {
  import opened Wrappers
  import opened ByteStrings
  import opened ByteRanges
  import opened VfsPaths
  import opened Membership
  import opened TreeContract
  import opened TreeLookup
  import opened Staging
  import opened AdmissionProtocol
  import opened Overlay

  type Store = Hash256 -> VfsResult<Bytes>

  /** What the overlay answers for one path. */
  datatype Answers = Answers(file: VfsResult<Bytes>, range: VfsResult<Bytes>, existing: VfsResult<bool>)

  function OverlayAnswers<R>(
    graph: Graph, s: StagingState<R>, disk: map<VfsPath, Staging.File>, path: VfsPath, offset: u64, len: u64): Answers
  {
    Answers(
      OverlayReadFile(graph, s, disk, path),
      OverlayReadRange(graph, s, disk, path, offset, len),
      OverlayExists(graph, s, path))
  }

  /// A snapshot that serves a set of files

  /** The snapshot's artifacts are exactly these files, and the store holds their bytes. */
  ghost predicate Serves(tree: CachedTree, store: Store, files: map<VfsPath, Staging.File>) {
    && tree.byPath.Keys == files.Keys
    && forall p :: p in files ==> Holds(tree.byPath[p], store, files[p])
  }

  predicate Holds(artifact: TreeArtifact, store: Store, file: Staging.File) {
    artifact.entry.Blob? && artifact.size == |file| && store(artifact.entry.hash) == Ok(file)
  }

  predicate FileBelow(top: VfsPath, files: map<VfsPath, Staging.File>) {
    exists q :: q in files && IsAncestorOf(top, q)
  }

  lemma DirectoryServed(tree: CachedTree, sha: Bytes -> Hash256, files: map<VfsPath, Staging.File>, p: VfsPath)
    requires Validated(tree, sha) && tree.byPath.Keys == files.Keys
    ensures p in tree.directories <==> p == ROOT || FileBelow(p, files)
  {
    assert p in tree.directories <==> IsDirectoryOf(p, tree.byPath);
    if q :| q in tree.byPath && IsAncestorOf(p, q) { assert q in files; }
    if q :| q in files && IsAncestorOf(p, q) { assert q in tree.byPath; }
  }

  lemma HeldFile(tree: CachedTree, store: Store, p: VfsPath, file: Staging.File, offset: u64, len: u64)
    requires p in tree.byPath && Holds(tree.byPath[p], store, file)
    ensures TreeGraph(tree, store).readFile(p) == Ok(file)
    ensures TreeGraph(tree, store).readRange(p, offset, len) == Ok(Range(file, offset, len))
    ensures TreeGraph(tree, store).existing(p) == Ok(true)
  {
  }

  lemma NoFileHeld(tree: CachedTree, store: Store, p: VfsPath, offset: u64, len: u64)
    requires p !in tree.byPath
    ensures var error: VfsError := if p in tree.directories then IsDirectory else NotFound;
            && TreeGraph(tree, store).readFile(p) == Err(error)
            && TreeGraph(tree, store).readRange(p, offset, len) == Err(error)
    ensures TreeGraph(tree, store).existing(p) == Ok(p in tree.directories)
  {
  }

  /** What a served file, and a path that is none, answer once nothing is staged for them. */
  lemma ServedAnswers<R>(
    tree: CachedTree, sha: Bytes -> Hash256, store: Store, files: map<VfsPath, Staging.File>,
    s: StagingState<R>, disk: map<VfsPath, Staging.File>, p: VfsPath, offset: u64, len: u64)
    requires Validated(tree, sha) && Serves(tree, store, files) && p !in s.entries
    ensures OverlayAnswers(TreeGraph(tree, store), s, disk, p, offset, len) ==
            if p in files then Answers(Ok(files[p]), Ok(Range(files[p], offset, len)), Ok(true))
            else if p == ROOT || FileBelow(p, files) then Answers(Err(IsDirectory), Err(IsDirectory), Ok(true))
            else Answers(Err(NotFound), Err(NotFound), Ok(false))
  {
    DirectoryServed(tree, sha, files, p);
    if p in files {
      HeldFile(tree, store, p, files[p], offset, len);
    } else {
      NoFileHeld(tree, store, p, offset, len);
    }
  }

  /** The staged answers, from what is staged and what the working copy holds. */
  lemma StagedAnswers<R>(
    graph: Graph, s: StagingState<R>, disk: map<VfsPath, Staging.File>, p: VfsPath, offset: u64, len: u64)
    requires p in s.entries
    ensures OverlayAnswers(graph, s, disk, p, offset, len) ==
            match s.entries[p].staged
            case Removed => Answers(Err(NotFound), Err(NotFound), Ok(false))
            case Present(stat) =>
              if p in disk then Answers(Ok(Range(disk[p], 0, stat.size)), Ok(Range(disk[p], offset, len)), Ok(true))
              else Answers(Err(Io), Err(Io), Ok(true))
  {
  }

  /// Across an acknowledgement

  /** The disposition reads as the file does: it is there and no longer than staged, or it is gone. */
  predicate ReadsAs(staged: Staged, content: Option<Staging.File>) {
    match staged
    case Present(stat) => content.Some? && |content.value| <= stat.size
    case Removed => content.None?
  }

  /** A run about to acknowledge admission `f`, which carries `p` unchanged and with no host effect unmarked. */
  ghost predicate Acknowledging(mode: Mode, start: map<VfsPath, Staging.File>, events: seq<Event>, s: State, f: nat, p: VfsPath) {
    && mode.keepAlive && mode.serial && Exec(mode, Init(start), events) == Some(s)
    && f in s.flights && f in s.commits && s.commits[f].published
    && Unchanged(s.staging, s.flights[f].pending, p) && p in s.lastHost && !Unmarked(s, p, s.lastHost[p])
  }

  function After(mode: Mode, s: State, f: nat, admission: Admission): State
    requires f in s.flights && f in s.commits && s.commits[f].published
  {
    Apply(mode, s, Acknowledge(f, admission))
  }

  /** `p` answers alike through the overlay in `s`, over any graph, and in `t`, over the snapshot. */
  ghost predicate Same(s: State, t: State, graph: Graph, tree: CachedTree, store: Store, p: VfsPath, offset: u64, len: u64) {
    OverlayAnswers(TreeGraph(tree, store), t.staging, t.disk, p, offset, len) ==
    OverlayAnswers(graph, s.staging, s.disk, p, offset, len)
  }

  lemma ClearedIsServed(
    mode: Mode, start: map<VfsPath, Staging.File>, events: seq<Event>, s: State, f: nat, admission: Admission, p: VfsPath)
    requires Acknowledging(mode, start, events, s, f, p)
    ensures var t := After(mode, s, f, admission);
            p !in t.staging.entries && Content(Published(start, t), p) == Content(s.disk, p)
  {
    AcknowledgedIsAdmitted(mode, start, events, f, admission, p);
  }

  /**
   In every run, across every acknowledgement, a cleared path answers read, range and existence from the
   graph as it did from the staging area exactly when what was staged reads as the file does and, for a
   removal, no published file lies below it. That the graph holds these bytes is not assumed: the protocol
   put them there.
   */
  lemma ReadsAreStableIff(
    mode: Mode, start: map<VfsPath, Staging.File>, events: seq<Event>, s: State, f: nat, admission: Admission,
    graph: Graph, tree: CachedTree, sha: Bytes -> Hash256, store: Store, p: VfsPath, offset: u64, len: u64)
    requires Acknowledging(mode, start, events, s, f, p) && Validated(tree, sha)
    requires Serves(tree, store, Published(start, After(mode, s, f, admission)))
    ensures var t := After(mode, s, f, admission);
            Same(s, t, graph, tree, store, p, offset, len) <==>
            && ReadsAs(s.staging.entries[p].staged, Content(s.disk, p))
            && (s.staging.entries[p].staged.Removed? ==> p != ROOT && !FileBelow(p, Published(start, t)))
  {
    var t := After(mode, s, f, admission);
    ClearedIsServed(mode, start, events, s, f, admission, p);
    StagedAnswers(graph, s.staging, s.disk, p, offset, len);
    ServedAnswers(tree, sha, store, Published(start, t), t.staging, t.disk, p, offset, len);
    if p in s.disk && s.staging.entries[p].staged.Present? {
      WholeRange(s.disk[p], s.staging.entries[p].staged.stat.size);
    }
  }

  lemma WholeRange(file: Bytes, size: nat)
    ensures Range(file, 0, size) == file <==> |file| <= size
  {
  }

  /** Nothing below `p` is still to reach the graph. */
  ghost predicate QuietBelow(s: State, p: VfsPath) {
    forall q: VfsPath :: IsAncestorOf(p, q) ==> !Owing(s, q)
  }

  /** An acknowledgement that leaves the writer owing nothing leaves nothing owed below any path. */
  lemma SettlingIsQuiet(mode: Mode, s: State, f: nat, admission: Admission, p: VfsPath)
    requires f in s.flights && f in s.commits && s.commits[f].published && s.mutators == map[]
    requires Health(After(mode, s, f, admission).staging).Settled?
    ensures QuietBelow(After(mode, s, f, admission), p)
  {
  }

  lemma PublishedBelow(
    mode: Mode, start: map<VfsPath, Staging.File>, events: seq<Event>, s: State, f: nat, admission: Admission, p: VfsPath)
    requires Acknowledging(mode, start, events, s, f, p)
    requires QuietBelow(After(mode, s, f, admission), p)
    ensures var t := After(mode, s, f, admission);
            FileBelow(p, Published(start, t)) <==> FileBelow(p, s.disk)
  {
    var t := After(mode, s, f, admission);
    RunKeepsSerialInv(mode, Init(start), events);
    RunKeepsUntouched(mode, start, Init(start), events);
    KeepsSerialInv(mode, s, Acknowledge(f, admission));
    KeepsUntouched(mode, start, s, Acknowledge(f, admission));
    forall q: VfsPath | IsAncestorOf(p, q) ensures q in Published(start, t) <==> q in t.disk {
      NotOwingIsPublished(start, t, q);
    }
  }

  lemma BelowAsPublished(
    mode: Mode, start: map<VfsPath, Staging.File>, events: seq<Event>, s: State, f: nat, admission: Admission, p: VfsPath)
    requires Acknowledging(mode, start, events, s, f, p) && OwesNothingBelow(mode, s, f, admission, p)
    ensures FileBelow(p, Published(start, After(mode, s, f, admission))) <==> FileBelow(p, s.disk)
  {
    if s.mutators == map[] && Health(After(mode, s, f, admission).staging).Settled? {
      SettlingIsQuiet(mode, s, f, admission, p);
    }
    PublishedBelow(mode, start, events, s, f, admission, p);
  }

  /** Nothing below `p` is owed after the acknowledgement; in particular where it settles the writer. */
  ghost predicate OwesNothingBelow(mode: Mode, s: State, f: nat, admission: Admission, p: VfsPath)
    requires f in s.flights && f in s.commits && s.commits[f].published
  {
    || QuietBelow(After(mode, s, f, admission), p)
    || (s.mutators == map[] && Health(After(mode, s, f, admission).staging).Settled?)
  }

  lemma StagedIsTruthful(mode: Mode, start: map<VfsPath, Staging.File>, events: seq<Event>, s: State, f: nat, p: VfsPath)
    requires Acknowledging(mode, start, events, s, f, p) && mode.restat
    ensures ReadsAs(s.staging.entries[p].staged, Content(s.disk, p))
  {
    RunKeepsTruthful(mode, Init(start), events);
    assert Describes(s.staging.entries[p].staged, Content(s.disk, p));
  }

  /**
   While no host effect comes between looking at a file and marking it, a file answers read, range and
   existence the same from the graph after every acknowledgement as from the staging area before it.
   */
  lemma FileReadsAreStable(
    mode: Mode, start: map<VfsPath, Staging.File>, events: seq<Event>, s: State, f: nat, admission: Admission,
    graph: Graph, tree: CachedTree, sha: Bytes -> Hash256, store: Store, p: VfsPath, offset: u64, len: u64)
    requires Acknowledging(mode, start, events, s, f, p) && mode.restat && Validated(tree, sha)
    requires Serves(tree, store, Published(start, After(mode, s, f, admission)))
    requires s.staging.entries[p].staged.Present?
    ensures Same(s, After(mode, s, f, admission), graph, tree, store, p, offset, len)
  {
    StagedIsTruthful(mode, start, events, s, f, p);
    ReadsAreStableIff(mode, start, events, s, f, admission, graph, tree, sha, store, p, offset, len);
  }

  /**
   A removal, with nothing below it still owed afterwards, answers the same exactly when the working copy
   has no file below the path: a file replaced by a directory of files comes back as that directory.
   */
  lemma RemovalIsStableIff(
    mode: Mode, start: map<VfsPath, Staging.File>, events: seq<Event>, s: State, f: nat, admission: Admission,
    graph: Graph, tree: CachedTree, sha: Bytes -> Hash256, store: Store, p: VfsPath, offset: u64, len: u64)
    requires Acknowledging(mode, start, events, s, f, p) && mode.restat && Validated(tree, sha)
    requires Serves(tree, store, Published(start, After(mode, s, f, admission)))
    requires s.staging.entries[p].staged.Removed?
    requires OwesNothingBelow(mode, s, f, admission, p)
    ensures Same(s, After(mode, s, f, admission), graph, tree, store, p, offset, len) <==>
            p != ROOT && !FileBelow(p, s.disk)
  {
    StagedIsTruthful(mode, start, events, s, f, p);
    ReadsAreStableIff(mode, start, events, s, f, admission, graph, tree, sha, store, p, offset, len);
    BelowAsPublished(mode, start, events, s, f, admission, p);
  }
}
